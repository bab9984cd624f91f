# DriveFlow: verified models

DriveFlow receives sensor packets over UDP, checks and classifies them, and hands them to a pool of workers. This
project models the stateful algorithms below its sockets in Dafny and proves what every run of them guarantees.

| files | what they model |
|---|---|
| `Words`, `Types`, `Arrangements` | machine words as bounded naturals, the shared data types, sequences up to order |
| `Tracker`, `TrackerRuns` | `SensorStreamTracker`: modular 64-bit comparison and a 64-position bitmap per source |
| `Pipeline`, `PipelineRuns` | `WorkerPipeline`: its critical sections, and all interleavings of them |
| `Crc`, `CrcPolynomial` | the bitwise CRC loop and the polynomial division it performs |
| `Wire`, `Packet`, `PacketAnswers` | big-endian fields, the packet envelope, and its answers to every byte string |
| `Ieee754`, `Payload`, `PayloadBytes` | floating-point patterns, the three payload schemas, and their answers to every byte string |
| `Health`, `Monitor`, `MonitorRuns`, `Report`, `ReportPackets` | `SourceHealthMonitor`: ring, counters, status, report |
| `Simulator`, `SimulatorRuns`, `EndToEnd`, `Corruption` | the fault injector, the send loop, and what the tracker makes of them |
| `SampleProcessor`, `Runtime`, `RuntimeRuns`, `RuntimeLoop` | the sample processor and `Runtime::run` |

Three decisions run through all of it.

* Words. A `uint64_t` is a natural number below 2^64; wrap-around is a remainder, and the bit operations are defined by
  halving, with the laws the proofs need in `Words`. Floating-point fields are their IEEE 754 bit patterns; range
  checks compare the real numbers these patterns stand for. The counters that the source saturates do saturate here;
  those it increments with a plain `++` are unbounded.
* Objects. Classes that update fields in place are classes whose methods are proved to do what a function of the old
  state says; runs are folds of those functions, and the theorems are about runs.
* Threads. The worker pipeline and the runtime are transition systems. A step is one lock-protected section, one
  notification, one spurious wake-up, one join, or one processor stage. The condition variable is explicit: a worker
  sleeps until a `notify_one` picks it, a `notify_all` reaches it, or it wakes for no reason. A submission's
  notification is a step of its own, after the section that pushed the packet.

Where code and documentation differ the model follows the code. `docs/sensor-stream-tracking.md` lists
`reordered_observations` as previously unseen older numbers; the code also counts a repeat that lies 64 or more places
behind, or exactly half the number space away, as reordered, and so does the specification in `Tracker`.

Three expected statements are not true of the code for every input; each has its exact condition.

* With a reorder interval of 1 the very first packet is held and sent second, so the tracker starts at number 2 and
  cannot infer that number 1 is missing. `EndToEnd.FaultsObserved` therefore carries the first number sent;
  `EndToEnd.MissingInRunExactlyWhen` says exactly when the plain equation holds, and `EndToEnd.ReorderedFirst` is an
  input on which it fails.
* A stopped simulator run sends a prefix of what the whole run would send, unless the stop predicate takes its answer
  back at the wrong moment: the loop guard sees the stop, the check before the final flush does not, and the held packet
  goes out before the one that should overtake it. `SimulatorRuns.EarlyFlush` spells out the looks,
  `SimulatorRuns.PrefixExactlyWhen` and `EndToEnd.RunIsPrefixExactlyWhen` prove the equivalence, and
  `EndToEnd.EarlyFlushIsNoPrefix` is an input.
* The runtime receives a prefix of what its polls return, unless a look inside a poll says stop below the limit, which
  discards the rest of that poll, and the looks that follow take it back: an outer one and then the first one inside a
  non-empty poll say no. `RuntimeLoop.Skips` states this over the polls, the looks and the limit,
  `RuntimeLoop.PrefixExactlyWhen` proves the equivalence and `RuntimeLoop.SkipHappens` is an input.

A burst of damage within four bytes goes unnoticed only across the end of the checksum field.
`PacketCodec.DamagePassesExactlyWhen` says when, and `PacketCodec.StraddlingDamagePasses` is such damage.

## Model

| member | source | states |
|---|---|---|
| Tracker.ClassifyRefines | src/runtime/sensor_stream_tracker.cpp:72-126 | one `observe` of a tracked source answers as an unbounded history of integer positions does, and the 64-bit bitmap mirrors the history again afterwards |
| Tracker.BitmapRefinesHistory | src/runtime/sensor_stream_tracker.cpp:72-126 | after any run, bit i of `recent_sequences` is set exactly when position highest - i was observed, and the last answer is the history's verdict |
| Tracker.PositionsAreTrue | src/runtime/sensor_stream_tracker.cpp:72-78 | while each arrival is within half the number space of the highest, the positions recovered from 64-bit numbers are the sender's unbounded counter values, across any number of wrap-arounds |
| Tracker.ClassificationIsTrue | src/runtime/sensor_stream_tracker.cpp:72-126 | in terms of the sender's counter: in order, gap, duplicate and reordered, each if and only if; a duplicate is a repeat fewer than 64 behind; the missing count is the distance skipped |
| Tracker.DistancePosition | src/runtime/sensor_stream_tracker.cpp:72-107 | the two unsigned 64-bit subtractions give the signed distance to the nearest position, with exactly half way counted as behind |
| Tracker.SensorStreamTracker.Observe | src/runtime/sensor_stream_tracker.cpp:41-127 | the imperative `observe` changes the table and the metrics as the specification function says and returns its answer |
| Tracker.SensorStreamTracker.FindSource | src/runtime/sensor_stream_tracker.cpp:45-47 | the table search returns the first entry of the source, or the end |
| TrackerRuns.AdmittedTable | src/runtime/sensor_stream_tracker.cpp:49-60 | the admitted sources are distinct, at most `max_sources`, and a source that was seen is missing only if the table is full |
| TrackerRuns.UntrackedForever | src/runtime/sensor_stream_tracker.cpp:50-56 | a source once refused stays refused, and each of its later packets is answered untracked |
| TrackerRuns.Streams | src/runtime/sensor_stream_tracker.cpp:41-127 | non-interference: after any interleaving each entry is the state that its source's numbers alone produce, and each answer is the one those numbers alone give |
| TrackerRuns.AloneIsTheSame | src/runtime/sensor_stream_tracker.cpp:41-127 | a tracker fed only one admitted source's packets ends with exactly the entry the shared tracker holds for it |
| TrackerRuns.AnswersAlone | src/runtime/sensor_stream_tracker.cpp:41-127 | and it answers that source's packets one by one as the shared tracker does |
| TrackerRuns.Counters | src/runtime/sensor_stream_tracker.cpp:43-126 | each status counter is the number of such answers, and `missing_samples_inferred` is the true total capped at 2^64 - 1 |
| TrackerRuns.Partition | src/runtime/sensor_stream_tracker.cpp:43-126 | the six status counters partition `packets_observed`, and there is one first observation per stream and per table entry |
| TrackerRuns.Telescoping | src/runtime/sensor_stream_tracker.cpp:72-126 | summed over the admitted sources, the distance the highest position advanced is in-order plus gap answers plus the total missing |
| TrackerRuns.MissingIsTheShortfall | src/runtime/sensor_stream_tracker.cpp:14-21 | for every run the saturating missing counter is the advance not accounted for by in-order and gap packets, capped at 2^64 - 1 |
| Pipeline.WorkerPipeline.TrySubmit | src/runtime/worker_pipeline.cpp:32-51 | the critical section of `try_submit`: stopped if and only if no longer accepting, else accepted, at the back of the queue, if and only if there is a free place, and the whole new state |
| Pipeline.WorkerPipeline.TakeOrWait | src/runtime/worker_pipeline.cpp:103-113 | the critical section of `worker_loop`: wait, leave, or take the front packet |
| Pipeline.WorkerPipeline.CountFinished | src/runtime/worker_pipeline.cpp:116-122 | the section that counts one finished processor call: as processed if it returned, as a handler failure if it threw |
| Pipeline.WorkerPipeline.RequestStop | src/runtime/worker_pipeline.cpp:82-87 | the section of `request_stop` |
| PipelineSystem.NoLostWakeupStep | src/runtime/worker_pipeline.cpp:32-51 | every step of every thread keeps: while a worker sleeps, waiting packets are at most the undelivered notifications plus the awake workers heading for the queue |
| PipelineSystem.ExactlyOnceStep | src/runtime/worker_pipeline.cpp:32-51 | every step keeps the accepted sequence equal to the taken one followed by the queue, and each taken packet in one worker's hands or finished, copy for copy |
| PipelineSystem.OrderlyStopStep | src/runtime/worker_pipeline.cpp:82-113 | every step keeps: a sleeper after a stop request still has its `notify_all` coming, a worker has exited only with the queue empty for good, and joined workers have exited |
| PipelineSystem.StepInv | src/runtime/worker_pipeline.cpp:99-125 | the conjunction of the invariants is kept by every step of every interleaving |
| PipelineRuns.NoWakeupIsLost | src/runtime/worker_pipeline.cpp:32-51 | in every reachable state, under spurious wake-ups and any number of submitters, no wake-up is lost |
| PipelineRuns.Conservation | src/runtime/worker_pipeline.cpp:32-51 | in every reachable state: FIFO, submitted = waiting + executing + processed + failed, the watermark bounds, and at most capacity + workers packets owned |
| PipelineRuns.OneWorkerIsFifo | src/runtime/worker_pipeline.cpp:99-125 | with one worker, packets finish in the order of acceptance |
| PipelineRuns.SubmissionAccepted | src/runtime/worker_pipeline.cpp:34-47 | in every reachable state a submission is appended to the accepted packets and to the queue, and a notification becomes due, if and only if the run has no stop in it and fewer packets wait than the capacity; otherwise none of these changes |
| PipelineRuns.SubmissionAnswer | src/runtime/worker_pipeline.cpp:34-50 | the three answers of `try_submit`, each if and only if, from the steps of the run and the number of packets waiting |
| PipelineRuns.CountersAreSteps | src/runtime/worker_pipeline.cpp:34-122 | each counter is a number of steps of the run: submissions with a free place, to a full queue, and after a stop; processor calls that returned, and that threw |
| PipelineRuns.WatermarkIsPeak | src/runtime/worker_pipeline.cpp:46-47 | the high-water mark is the longest queue of the whole run: never exceeded and attained |
| PipelineRuns.NotStuck | src/runtime/worker_pipeline.cpp:99-125 | every reachable state with a waiting packet or a stop in progress has a next step of the pipeline's own that is not a spurious wake-up |
| PipelineRuns.WorkProgress | src/runtime/worker_pipeline.cpp:99-125 | while nobody stops the pipeline, every step of its own other than a spurious wake-up lowers the workload, and a submission or a spurious wake-up adds at most 6 or 1 |
| PipelineRuns.WorkIsBounded | src/runtime/worker_pipeline.cpp:32-51 | in every such schedule the steps of its own are bounded by the workload at hand plus what the schedule adds |
| PipelineRuns.AtRestAllFinished | src/runtime/worker_pipeline.cpp:99-125 | when no such step is left, the queue is empty and every accepted packet is finished |
| PipelineRuns.StopProgress | src/runtime/worker_pipeline.cpp:82-125 | during a stop a natural-number measure drops on every step of the pipeline |
| PipelineRuns.StopIsBounded | src/runtime/worker_pipeline.cpp:82-125 | however submissions interleave, a stop takes at most that many steps |
| PipelineRuns.StopReturns | src/runtime/worker_pipeline.cpp:53-60 | from every reachable state of a stop the drain can be completed without a spurious wake-up |
| PipelineRuns.StopDrained | src/runtime/worker_pipeline.cpp:53-60 | when `stop()` returns the queue is empty, all workers have exited, submitted = processed + failures, and the finished packets are the accepted ones |
| PipelineRuns.DrainedForever | src/runtime/worker_pipeline.cpp:34-38 | whatever is called after a stop changes only the count of rejected submissions, by one per submission |
| Crc.UpdateCrc | src/protocol/packet.cpp:33-43 | the nested loops with the branch-free mask compute the register function |
| Crc.UpdateConcat | src/protocol/packet.cpp:45-50 | the register after a concatenation is that of the second part started from that of the first |
| Crc.PacketCrcIsCrc32 | src/protocol/packet.cpp:45-60 | `packet_crc(header, payload)` is `crc32` of header followed by payload, for all byte strings |
| Crc.UpdateLinear | src/protocol/packet.cpp:33-43 | the register is linear under exclusive or |
| Crc.UpdateInjective | src/protocol/packet.cpp:33-43 | for fixed bytes, different registers stay different |
| Crc.BurstDetected | src/protocol/packet.cpp:33-60 | any change confined to four consecutive bytes changes the checksum |
| CrcPolynomial.ReflectedGenerator | src/protocol/packet.cpp:21 | the constant in the loop is the generator of ITU-T V.42 section 8.1.1.6.2 with its bits reversed |
| CrcPolynomial.FeedIsDivision | src/protocol/packet.cpp:33-43 | for every bit string the register is the remainder, with an explicit quotient, of carry-less division by the generator |
| CrcPolynomial.Crc32IsRemainder | src/protocol/packet.cpp:58-60 | the checksum is the CRC-32/ISO-HDLC remainder of the message times x^32 with the first 32 bits inverted, reflected and complemented |
| CrcPolynomial.RemainderUnique | src/protocol/packet.cpp:33-60 | no other quotient and 32-bit remainder satisfies the division equation |
| Wire.WriteBigEndian | src/protocol/wire.hpp:11-18 | the write loop stores the big-endian bytes in place and touches nothing else |
| Wire.ReadBigEndian | src/protocol/wire.hpp:20-29 | the read loop computes the big-endian value |
| Wire.ReadWritten | src/protocol/wire.hpp:11-29 | reading back what was written gives the value |
| Wire.WriteRead | src/protocol/wire.hpp:11-29 | writing back what was read gives the bytes |
| PacketCodec.EncodePacket | src/protocol/packet.cpp:62-90 | the in-place encoder produces the specified datagram or the specified error |
| PacketCodec.DecodePacket | src/protocol/packet.cpp:92-139 | the decoder answers as `Decode` does, whose answers `PacketAnswers.AnswerExactly` characterizes one by one |
| PacketAnswers.AnswerExactly | src/protocol/packet.cpp:103-134 | every answer of the decoder, if and only if: by the length, the four bytes DRFL, the version bytes 0 1, the type bytes, the length field, and the CRC-32 of prefix and payload, in this order of precedence |
| PacketAnswers.TypeExactly | src/protocol/packet.cpp:115-118 | type 1 is inertial, 2 is a position fix, 3 is camera metadata |
| PacketAnswers.CutOrExtended | src/protocol/packet.cpp:103-128 | a valid datagram cut to fewer than 32 bytes has a truncated header, cut later a truncated payload, and with any bytes appended a length mismatch |
| PacketAnswers.HeaderFieldDecides | src/protocol/packet.cpp:109-121 | in a changed datagram the first wrong field decides, whatever follows: magic, then version, then type, then length |
| PacketAnswers.DamagedName | src/protocol/packet.cpp:109-114 | damage within bytes 0 to 3 of a valid datagram is an invalid magic, within bytes 4 and 5 an unsupported version |
| PacketAnswers.EncodesExactly | src/protocol/packet.cpp:62-90 | the datagram byte for byte, and the two refusals: a type other than 1 to 3 first, then a payload of more than 65475 bytes |
| PacketCodec.DecodeEncoded | src/protocol/packet.cpp:62-139 | every message within the payload limit decodes to itself |
| PacketCodec.EncodeDecoded | src/protocol/packet.cpp:62-139 | whatever the decoder accepts is byte for byte what the encoder writes |
| PacketCodec.HeaderDamageDetected | src/protocol/packet.cpp:92-134 | any change within four consecutive bytes of the header, checksum field included, makes `decode_packet` fail |
| PacketCodec.BodyDamageIsCrcMismatch | src/protocol/packet.cpp:130-134 | any change within four consecutive bytes of the payload, or of the checksum field, fails with exactly the CRC mismatch |
| PacketCodec.DamagePassesExactlyWhen | src/protocol/packet.cpp:130-134 | any change behind the header prefix passes if and only if the change of the checksum field is the register that the change of the payload leads to from zero, and is a CRC mismatch otherwise |
| PacketCodec.StraddlingDamagePasses | src/protocol/packet.cpp:130-134 | such a change within four bytes exists: two bytes of the checksum field and two of a three-byte payload |
| PacketCodec.FlipLowBit | src/simulator/sensor_simulator.cpp:195-197 | `^= 0x01` changes the byte by one, up or down |
| PacketCodec.CorruptionRejected | src/simulator/sensor_simulator.cpp:195-197 | every packet the simulator corrupts is rejected as a CRC mismatch |
| Ieee754.NegativePattern | src/protocol/sensor_payload.cpp:58 | an accuracy pattern is below zero exactly above 0x80000000, so negative zero is not |
| Ieee754.MagnitudeGrows | src/protocol/sensor_payload.cpp:56-57 | patterns without their sign are ordered as the numbers they stand for |
| Ieee754.WithinPattern | src/protocol/sensor_payload.cpp:56-57 | a double lies between -x and x exactly when its pattern without the sign is at most that of x |
| Ieee754.FinitePattern32 | src/protocol/sensor_payload.cpp:42-44 | a float is finite exactly when its pattern without the sign is below 0x7F800000 |
| Ieee754.FinitePattern64 | src/protocol/sensor_payload.cpp:51-53 | a double is finite exactly when its pattern without the sign is below 0x7FF0000000000000 |
| SensorPayloads.FixPatterns | src/protocol/sensor_payload.cpp:50-62 | the checks of a position fix on bit patterns: finiteness, then the patterns of 90 and 180 degrees whatever the sign, and accuracies up to negative zero |
| SensorPayloads.NegativeZeroAccuracy | src/protocol/sensor_payload.cpp:56-60 | either accuracy may be negative zero exactly where it may be positive zero |
| SensorPayloads.EncodePayload | src/protocol/sensor_payload.cpp:78-120 | the in-place encoders answer as `Encode` does, whose bytes and refusals the three lemmas `PayloadBytes.ImuEncodes`, `GnssEncodes` and `CameraEncodes` give |
| PayloadBytes.ImuEncodes | src/protocol/sensor_payload.cpp:78-89 | an inertial sample is encoded if and only if the patterns of all six components are finite, as these six in order; otherwise the number is not finite |
| PayloadBytes.GnssEncodes | src/protocol/sensor_payload.cpp:91-101 | a fix is encoded if and only if its patterns are in range and its accuracies finite and not below zero, negative zero included; else a number that is not finite goes before one out of range |
| PayloadBytes.CameraEncodes | src/protocol/sensor_payload.cpp:103-120 | camera metadata are encoded if and only if width and height are positive and the extra bytes at most 65451; too many extra bytes go first |
| PayloadBytes.ImuAccepts | src/protocol/sensor_payload.cpp:130-147 | a byte string decodes to an inertial sample if and only if it is its six finite components, big-endian, in order |
| PayloadBytes.GnssAccepts | src/protocol/sensor_payload.cpp:149-163 | the same for a fix, by the bit patterns of its five fields |
| PayloadBytes.CameraAccepts | src/protocol/sensor_payload.cpp:165-190 | the same for camera metadata, by its dimensions and the length of the extra bytes |
| PayloadBytes.ImuRefuses | src/protocol/sensor_payload.cpp:130-147 | every other byte string is refused: a size other than 24, or else one of the six fields not finite |
| PayloadBytes.GnssRefuses | src/protocol/sensor_payload.cpp:149-163 | a size other than 32, else a field not finite, else one out of range, each if and only if |
| PayloadBytes.CameraRefuses | src/protocol/sensor_payload.cpp:165-190 | fewer than 24 bytes or not as many as the length field says, or a length field above 65451 or an empty picture, each if and only if |
| SensorPayloads.DecodeEncoded | src/protocol/sensor_payload.cpp:130-228 | every sample the encoder accepts decodes to the same bits and fits the envelope's payload limit |
| SensorPayloads.EncodeDecoded | src/protocol/sensor_payload.cpp:130-228 | whatever the payload decoder accepts encodes to exactly those bytes |
| FullStack.SampleRoundTrip | src/protocol/sensor_payload.cpp:213-228 | every valid sample survives both encoders and both decoders bit for bit, with its number and timestamp |
| FullStack.DatagramRoundTrip | src/protocol/packet.cpp:62-139 | bytes that both decoders accept are the datagram of the sample they decode to |
| Health.StateSummarizes | src/runtime/source_health_monitor.cpp:167-206 | after any mix of packets and issues the summary fields are functions of the whole log: arrivals, clamped last arrival, latest trouble, clean packets since |
| Health.StateCounts | src/runtime/source_health_monitor.cpp:178-196 | each counter of a source is the number of its events in the log, capped at 2^64 - 1 |
| Health.LatencyTells | src/runtime/source_health_monitor.cpp:217-231 | the latest latency is the last arrival's, zero for a source clock that ran ahead, and the maximum is that of all timely arrivals, attained |
| Health.FirstArrivalStays | src/runtime/source_health_monitor.cpp:169-175 | the first receive time is the first clamped arrival for ever, however many packets follow |
| Health.RingIsRecent | src/runtime/source_health_monitor.cpp:208-215 | for arbitrary receive times the ring read from oldest to newest is the last min(64, n) clamped arrivals, in non-decreasing order |
| Health.RateIsHonest | src/runtime/source_health_monitor.cpp:241-262 | the rate is intervals over elapsed time of those arrivals, and its unsigned subtraction never wraps |
| Health.StatusRefines | src/runtime/source_health_monitor.cpp:264-287 | the lazily evaluated status is the status of the whole history |
| Health.StatusExactly | src/runtime/source_health_monitor.cpp:264-287 | the four statuses, each if and only if, as windows of time after the latest arrival and the latest trouble |
| Health.UnknownExactlyWhen | src/runtime/source_health_monitor.cpp:283-285 | a source is ever UNKNOWN exactly while it has had no trouble and fewer than `healthy_after_packets` packets |
| Health.NeverUnknownAgain | src/runtime/source_health_monitor.cpp:233-239 | after any trouble, or after `healthy_after_packets` packets, no later history is UNKNOWN |
| Health.StatusOverTime | src/runtime/source_health_monitor.cpp:264-287 | as time passes a fixed source only moves forward through recovering, settled, silent and offline |
| Monitor.SourceHealthMonitor.ObservePacket | src/runtime/source_health_monitor.cpp:76-93 | `observe_packet` changes the tracker and the records as the specification function says |
| Monitor.SourceHealthMonitor.Record | src/runtime/source_health_monitor.cpp:167-239 | `record_packet`, assignment by assignment, applies one arrival event |
| Monitor.SourceHealthMonitor.ObserveIssue | src/runtime/source_health_monitor.cpp:95-111 | `observe_issue` applies one issue event, or nothing for a source without a record |
| Monitor.MonitorRefinesLogs | src/runtime/source_health_monitor.cpp:76-111 | after any calls the records are those of the admitted sources in table order, each the one its own history produces |
| Monitor.LogTracked | src/runtime/source_health_monitor.cpp:197-198 | the untracked branch of `record_packet` is never taken |
| MonitorRuns.TwinTables | src/runtime/source_health_monitor.cpp:76-93 | the monitor's and the tracker's tables hold the same distinct sources in the same order, within the limit |
| MonitorRuns.MonitorStatus | src/runtime/source_health_monitor.cpp:264-287 | each record's status is the status of its source's own history |
| MonitorRuns.OwnLog | src/runtime/source_health_monitor.cpp:76-111 | non-interference: a source's history is what the calls about this source alone produce |
| MonitorRuns.LogSchedule | src/runtime/source_health_monitor.cpp:233-239 | moving issues within a history changes no field but the count of clean packets since the last issue |
| MonitorRuns.ScheduleIndependence | src/runtime/source_health_monitor.cpp:95-111 | for equal packet calls and the same issues at any times, trackers are equal and records differ at most in that count |
| MonitorRuns.StatusDiffersExactlyWhen | src/runtime/source_health_monitor.cpp:264-287 | two such records have different statuses exactly when the source sends, its last issue is past recovery, and the count has reached the threshold in one only; then one is HEALTHY and the other DEGRADED |
| MonitorReport.SourceTotal | src/runtime/source_health_monitor.cpp:124-132 | the report's key order is a strict total order on sources |
| MonitorReport.FirstDifferenceDecides | src/runtime/source_health_monitor.cpp:124-132 | of two addresses the first differing character decides, the smaller one first, and a proper prefix goes first |
| MonitorReport.FirstComponentDecides | src/runtime/source_health_monitor.cpp:124-132 | of two sources the first differing component decides, ascending: remote address, remote port, listener address, listener port, type |
| MonitorReport.MakeReport | src/runtime/source_health_monitor.cpp:113-134 | the report method collects and sorts one snapshot per record |
| MonitorReport.ReportIsUnique | src/runtime/source_health_monitor.cpp:124-132 | the report lists the snapshots in the one strictly ascending order there is: a list is the report if and only if it is ascending and a permutation of the snapshots |
| MonitorReport.ReportTellsHistories | src/runtime/source_health_monitor.cpp:289-310 | every field of every snapshot is a function of its source's history: status, counts, times, inactivity, rate, latencies and all seven counters |
| MonitorReport.ReportSources | src/runtime/source_health_monitor.cpp:113-134 | the report is ascending and is about exactly the admitted sources |
| ReportPackets.SnapshotPackets | src/runtime/source_health_monitor.cpp:167-310 | a snapshot in terms of the packets of its sender, listener and type: how many, first and latest receive time, silence since, last and longest travel time, and how often the source clock was ahead |
| ReportPackets.LogIssues | src/runtime/source_health_monitor.cpp:95-111 | the issues in a source's history are those reported about its packets, each at its packet's receive time |
| MonitorReport.ReportStatuses | src/runtime/source_health_monitor.cpp:113-134 | where such reports differ in a status, one says HEALTHY and the other DEGRADED |
| MonitorReport.ReportSchedule | src/runtime/source_health_monitor.cpp:113-134 | reports of schedules with the same packets and issues agree in everything but the statuses |
| Simulator.FaultInjector.ProcessPacket | src/simulator/sensor_simulator.cpp:181-216 | `process` changes the one-slot buffer and returns the batch as the specification function says |
| Simulator.FaultInjector.Finish | src/simulator/sensor_simulator.cpp:218-226 | `finish` releases what is held |
| Simulator.WaitUntilOrStop | src/simulator/sensor_simulator.cpp:141-155 | the polling loop of a wait: how often it looks at the predicate, and whether it saw a stop |
| Simulator.SendWholeBatch | src/simulator/sensor_simulator.cpp:243-276 | the send loop computes the specified link state, interrupted or not, with every look at the predicate |
| SimulatorRuns.SendsUntilStop | src/simulator/sensor_simulator.cpp:243-276 | the first look that says stop ends a batch, and its place among the looks decides what was sent and counted: the packets before the one whose look or wait it was, and nothing of that one but its delay |
| Simulator.RunSimulator | src/simulator/sensor_simulator.cpp:452-501 | the generation loop with all its exits, with or without a packet count, computes the recursive specification |
| SimulatorRuns.RunSends | src/simulator/sensor_simulator.cpp:452-501 | an uninterrupted run sends the undropped packets in swapped order, with their copies, and its summary counts them; a stop only cuts the sequence short unless it lets the held packet out early |
| SimulatorRuns.PrefixExactlyWhen | src/simulator/sensor_simulator.cpp:466-499 | if the packets differ, what is sent is a prefix of the plan if and only if not: the first stop is seen by the loop guard while a number is held that a later kept one should overtake, and is taken back at the next two looks and during the held packet's delay |
| SimulatorRuns.StickyIsNeverEarly | src/simulator/sensor_simulator.cpp:466-499 | a stop predicate that does not take its answer back never does so |
| SimulatorRuns.EarlyFlushHappens | src/simulator/sensor_simulator.cpp:496-499 | such a run exists: reorder interval 1 and one stop answer between the first two packets |
| SimulatorRuns.CountDoesNotMatter | src/simulator/sensor_simulator.cpp:466-488 | a run that ends before its packet count is the run of any larger count, so also the run without one |
| SimulatorRuns.SentAccounting | src/simulator/sensor_simulator.cpp:466-499 | sent = generated - dropped + duplicates, and sent is the number of datagrams |
| SimulatorRuns.CountersByInterval | src/simulator/sensor_simulator.cpp:181-276 | in an uninterrupted run count / drop interval packets are dropped, and of the kept numbers those are delayed, duplicated and corrupted (twice, if also duplicated) which the interval divides |
| SimulatorRuns.InjectorPermutes | src/simulator/sensor_simulator.cpp:181-226 | the packets sent are the undropped ones, each once and at most one place off by disjoint adjacent swaps, and the reorder events are the inversions |
| SimulatorRuns.CorruptionAccounting | src/simulator/sensor_simulator.cpp:195-197 | a receiver rejects exactly as many datagrams as the summary counts as corrupted |
| EndToEnd.WatchSent | src/runtime/sensor_stream_tracker.cpp:72-126 | what the tracker answers to any such sequence: as many duplicates as extra copies, as many reorderings as swaps, and the shortfall as missing |
| EndToEnd.ArrivalsAreSent | src/simulator/sensor_simulator.cpp:466-499 | a lossless channel and the two decoders give the tracker the sequence of numbers sent, from one source |
| EndToEnd.FaultsObserved | src/simulator/sensor_simulator.cpp:243-276 | for every drop, duplicate and reorder configuration the tracker's duplicates and reorderings equal the simulator's, and its missing count equals the swaps plus the drops behind the highest number, less the numbers before the first one sent |
| EndToEnd.MissingExactlyWhen | src/simulator/sensor_simulator.cpp:208-212 | for the list of numbers sent, unless it is empty: missing = swaps + drops behind the highest if and only if the reorder interval is not 1 or a single number is kept |
| EndToEnd.MissingInRunExactlyWhen | src/simulator/sensor_simulator.cpp:208-212 | for every uninterrupted run and the tracker that hears it: missing = reorder events + drops behind the highest if and only if the reorder interval is not 1, or one packet is generated, or the drop interval is 1, or it is 2 and two packets are generated |
| EndToEnd.ReorderedFirst | src/simulator/sensor_simulator.cpp:208-212 | the failing input: reorder interval 1 and two packets, one reorder event and nothing inferred missing |
| EndToEnd.EarlyFlushIsNoPrefix | src/simulator/sensor_simulator.cpp:496-499 | a run whose datagrams are not a prefix of its plan: two packets, reorder interval 1, one stop answer between them |
| EndToEnd.RunIsPrefixExactlyWhen | src/simulator/sensor_simulator.cpp:466-499 | the simulator's own packets differ, so the if-and-only-if on prefixes holds for every run of it |
| EndToEnd.KeptAtMostOne | src/simulator/sensor_simulator.cpp:184-187 | the drop intervals and counts that leave at most one number |
| CorruptedRuns.WatchHeard | src/runtime/sensor_stream_tracker.cpp:72-126 | what the tracker answers when corrupted numbers are missing from the sequence: extra copies heard, swaps of which both packets are heard, and the shortfall |
| CorruptedRuns.OneOfFourHeard | src/simulator/sensor_simulator.cpp:184-197 | unless one rule takes every number, no four numbers in a row are dropped or corrupted |
| CorruptedRuns.ArrivalsAreHeard | src/simulator/sensor_simulator.cpp:243-276 | of what is sent, the receiver passes on to the tracker exactly the uncorrupted numbers, in order |
| CorruptedRuns.EveryFaultObserved | src/simulator/sensor_simulator.cpp:181-276 | for every fault configuration, corruption included: the tracker's packets are those sent less those corrupted, its duplicates, reorderings and missing count are exactly those of the numbers heard |
| SampleProcessor.SensorSampleProcessor.Process | src/runtime/sensor_sample_processor.cpp:16-53 | `process` counts one packet and ends with the decoder's error, the handler's return or the handler's exception; the handler gets number, both timestamps, both endpoints and payload in their own fields, of exactly the packets that decode |
| SampleDelivery.SampleDelivered | src/runtime/sensor_sample_processor.cpp:16-45 | for every sample that can be encoded, processing its decoded datagram hands the handler that sample with its number, its sending and receive time, its sender and its listener |
| SampleDelivery.HandedOnWasSent | src/runtime/sensor_sample_processor.cpp:16-45 | nothing else is handed on: a payload that does not decode is answered with its error and never reaches the handler, and the bytes behind a sample handed on are its datagram |
| SampleDelivery.DeliverDatagram | src/runtime/sensor_sample_processor.cpp:16-53 | the packet decoder and `process` together do so for every datagram |
| SampleProcessor.SamplesPartition | src/runtime/sensor_sample_processor.cpp:16-45 | examined = decoded + rejected, and decoded = the three types together |
| SampleProcessor.SamplesByType | src/runtime/sensor_sample_processor.cpp:35-45 | each sample-type counter is the number of decoded packets with that message type in the header |
| SampleProcessor.SamplesOrder | src/runtime/sensor_sample_processor.cpp:16-45 | the counters depend on which packets were examined, not on the order |
| RuntimeSystem.StepInv | src/runtime/runtime.cpp:57-97 | every step of the receiving thread and of every worker keeps the books of the whole runtime |
| RuntimeSystem.ExecutedWasSeen | src/runtime/runtime.cpp:73-92 | a worker never reports an issue about a source of which no packet was observed |
| RuntimeRuns.AllDone | src/runtime/runtime.cpp:73-99 | at return every accepted packet has been examined and finished once, and every rejection and drop reported once |
| RuntimeRuns.WholeRunAccounting | src/runtime/runtime.cpp:66-105 | the accounting equations of a complete run, under every interleaving |
| RuntimeRuns.FailuresAreThrows | src/runtime/worker_pipeline.cpp:115-122 | in every run the processed packets are the processor calls that returned, and the handler failures those that threw |
| RuntimeRuns.PerSourceCounts | src/runtime/runtime.cpp:73-92 | each source is credited with exactly its own packets, drops and rejections |
| RuntimeRuns.SourcesAddUp | src/runtime/runtime.cpp:66-105 | the per-source counts and those of untracked sources add up to the totals |
| RuntimeRuns.ReportAddsUp | src/runtime/runtime.cpp:66-105 | while fewer than 2^64 packets arrive, the reported packets, drops and rejections themselves add up to the totals, with those of untracked sources |
| RuntimeRuns.SequenceMetricsDependOnReceiveOrder | src/runtime/runtime.cpp:88 | the sequence metrics depend only on what was received in which order |
| RuntimeRuns.RuntimeScheduleIndependence | src/runtime/runtime.cpp:66-105 | two runs that received and accepted the same packets in the same order return the same summary, whatever the schedules, up to statuses, watermark and the split between processed and failed |
| RuntimeRuns.ScheduleRecords | src/runtime/runtime.cpp:66-105 | two such runs keep the same records, last-issue times included, up to the clean packets since the last issue |
| RuntimeRuns.ScheduleStatusesDiffer | src/runtime/runtime.cpp:100-105 | the statuses of two such runs differ exactly when that count decides, and then between HEALTHY and DEGRADED |
| RuntimeRuns.StoppingProgress | src/runtime/runtime.cpp:98-99 | once the loop has ended every step of any thread brings the return nearer |
| RuntimeRuns.RuntimeNotStuck | src/runtime/runtime.cpp:83-99 | no reachable state before the return is stuck, even without packets and without spurious wake-ups |
| RuntimeRuns.WorkersNotStuck | src/runtime/runtime.cpp:73-99 | while packets wait, the pipeline and its workers have a step to take, whatever the receiving thread does and without spurious wake-ups |
| RuntimeRuns.OneWorkerKeepsOrder | src/runtime/runtime.cpp:73-99 | with one worker a complete run examines and finishes the accepted packets in the order in which they were received |
| RuntimeRuns.StoppingReturns | src/runtime/runtime.cpp:98-105 | after the loop has ended at most a fixed number of steps remain, and the only state without a next step other than a spurious wake-up is the one in which `run` has returned |
| RuntimeLoop.Runtime.HandlePacket | src/runtime/runtime.cpp:88-94 | the body of the inner loop keeps the books of the components |
| RuntimeLoop.Runtime.ProcessPacket | src/runtime/runtime.cpp:75-81 | the packet processor examines the packet and reports it if its payload is refused; it throws exactly when the payload decodes and the handler throws |
| RuntimeLoop.Runtime.WorkerTurn | src/runtime/worker_pipeline.cpp:103-122 | one turn of a worker takes the front packet, processes it, and counts it; the failures are always the examined packets that decode and make the handler throw |
| RuntimeLoop.Runtime.ReceiveLoop | src/runtime/runtime.cpp:83-96 | the two nested loops receive exactly the packets the stop predicate and the limit let through |
| RuntimeLoop.ReceivesExactlyWhen | src/runtime/runtime.cpp:83-87 | below the limit something is received if and only if some outer look and the first look inside its non-empty poll both say no |
| RuntimeLoop.ReceivedIsPrefix | src/runtime/runtime.cpp:83-87 | for every stop predicate: what is received never exceeds the limit, and is a prefix of what the polls return unless the looks skip |
| RuntimeLoop.PrefixExactlyWhen | src/runtime/runtime.cpp:83-87 | if no packet is returned twice, it is a prefix if and only if not: a look inside a poll says stop below the limit, and later looks let a packet of a later poll through |
| RuntimeLoop.SkipHappens | src/runtime/runtime.cpp:83-87 | a run that skips: polls [p, q] and [r], stop said once before q, and [p, r] received |
| RuntimeLoop.StickySkipsNothing | src/runtime/runtime.cpp:83-87 | a stop predicate that does not take its answer back never skips |
| RuntimeLoop.UnstoppedReceivesAll | src/runtime/runtime.cpp:83-87 | everything is received if the predicate never speaks and the limit is not reached |
| RuntimeLoop.Run | src/runtime/runtime.cpp:57-106 | the summary of exactly what was received: which packets were accepted, dropped and refused, the sample counts by type, the failures as the accepted packets that decode and make the handler throw, a full queue whenever something was dropped, the sequence metrics, and a report that is about exactly the admitted sources and tells each one's history as of `now` |

## Left out

- Sockets, epoll and polling time-outs (`src/net/udp_socket.cpp`, `src/runtime/epoll_receiver.cpp`): the receiver is an arbitrary sequence of decoded packets with arbitrary timestamps.
- Command-line parsing, usage texts, the programs under `apps/` and the `to_string` functions.
- The constructors' configuration checks are the `Valid` predicates, required of callers; the exceptions for empty callbacks are not modelled.
- Clocks, sleeping and rate pacing: an oracle gives the successive answers of the stop predicate, and another how often each wait sleeps before its deadline.
- Simulator.RunSimulator: a run without a packet count that is never stopped does not end and is not modelled; one that is stopped is the run of any count it does not reach (`SimulatorRuns.CountDoesNotMatter`).
- Failures of thread creation and of memory allocation, and the memory orders of the atomic counters: the counters of one `process` call change in one step.
- Health.RateIsHonest: the rate is an exact real number; the rounding of the code's double-precision division is not modelled.
- MonitorReport.ReportTellsHistories: the same holds of the rate in a snapshot.
- `std::ranges::sort` is an insertion sort; `MonitorReport.ReportIsUnique` makes the choice immaterial.
- A source's record is a value inside the monitor's sequence, and its 64 timestamps are a sequence inside the record; the tracker's entries likewise. Aliasing between them is therefore not an issue that arises.
- RuntimeLoop.Runtime.WorkerTurn: a worker takes, processes, reports and counts one packet without anything in between.
- RuntimeLoop.Run: runs the workers in turns between the statements of the receiving loop; all interleavings are in `RuntimeSystem`, whose theorems do not depend on it.
- RuntimeRuns.SourcesAddUp: adds up the exact counts; a per-source counter equals its exact count capped at 2^64 - 1 (`RuntimeRuns.PerSourceCounts`), so the reported fields add up while fewer than 2^64 packets arrive (`RuntimeRuns.ReportAddsUp`).
- EndToEnd.FaultsObserved: one sensor type and one sender per run, as in one simulator process, and fewer than 2^64 packets.
