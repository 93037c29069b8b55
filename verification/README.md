# Verification of the STGS ground station

A Dafny model of the telemetry receiver: the frame codec and its checksum, TCP framing and the
multi-client loop, the health monitor, the two file and payload formats, the bounded queue and the
concurrent decoding pipeline. The parts compose into statements about the whole way of a frame,
from the simulator's `sendAll` or a capture file to the exported list.

`dafny verify dfyconfig.toml` checks everything.

## How the project is laid out

| module | subject |
|---|---|
| `Bytes` | big-endian integers and the byte buffer the codecs append to |
| `ByteValues` | what the integers on the wire are worth |
| `Crc32` | the table-driven CRC, the bit-serial one of section 8 of RFC 1952, and the unreflected one |
| `CrcValues` | the check value, the residue and leading zeros |
| `CrcOrder` | the order of x modulo the generator polynomial |
| `FrameCodec` | `encodeFrame`, `decodeFrame` |
| `RejectionReasons` | the layout of a frame, and which error code a damaged one gets |
| `ErrorDetection` | what the checksum detects within four bytes, and exactly what it does not |
| `BitErrors` | two flipped bits at any distance |
| `StreamFraming`, `StreamParsing` | `StreamFrameExtractor`: one `feed`, many fragments, an independent reading of a stream, noise |
| `TcpServer` | the poll loop with its snapshot, reverse erasure and one extractor per client |
| `TcpConnections` | who stays connected and which bytes count, from the events of poll and recv alone |
| `StationHealth` | the sliding window with two hystereses |
| `DwellTime` | exactly when the two rejection rates keep a degradation and its recovery apart |
| `Replay`, `ReplayDamage` | the STGF capture file; a cut or damaged one |
| `ApplicationPayload`, `PayloadReasons` | the STGA text and signal payloads; cut and altered ones |
| `FloatValues` | the exact values behind the Nyquist comparison |
| `BlockingQueue` | the critical sections, and the monitor with its sleepers, wake-ups and notifications |
| `OrderedWriter` | the writer's re-ordering loop on any order of arrival |
| `Pipeline` | the threads and queues as a step relation; `submit`, `failPipeline`, `AsyncFailure` as methods |
| `PipelineInvariant` | what every step keeps |
| `PipelineTheorems` | conservation, output, clean returns, first errors |
| `PipelineProgress` | no deadlock, a bound on every run, independence of the schedule |
| `PipelineCauses` | which throw an error stands for, that none goes unreported, what stops the input |
| `PipelineLimits` | what is bounded and what is not: the counters' lag and the parked results |
| `PipelineMonitors` | the same threads on the monitors instead of ideal queues |
| `HealthOfResults` | the monitor on decoded and rejected frames, and the list of transitions |
| `EndToEnd` | `sendAll`, and the composition of everything above |

## Reading the model

- A class stands for each class of the source whose methods update its fields. Its methods are
  proved against specification functions (`Extract`, `Record`, `Consume`, ...), and the theorems are
  about those functions.
- An exception becomes an error value: `None`, `Rejected`, `Failed` and the like. Only error codes are kept.
- A float is its 32-bit pattern, finite iff the exponent field is not all ones (section 3.4 of
  IEEE 754-2019). The Nyquist comparison is made on the exact values of the patterns.
- Health rates are real numbers and `rejected / samples >= rate` is read as `rejected >= rate * samples`.
- In `Pipeline` a step is one thread going from one synchronisation point to the next. A push or pop
  that would wait is a step that is not enabled. `PipelineMonitors` justifies that: there every push and
  pop goes through the monitor of `BlockingQueue`, with sleeping and woken threads, notifications that
  come after the unlock, broadcasts and spurious wake-ups. Every run of that system is, in what its
  threads do, a run of `Pipeline` (`Projection`), and it gets stuck or goes on no more than `Pipeline` does.
- A replay ends by itself; a network station listens until it is asked to stop (`Config.replay`, `Listening`).
- Decoding, health, logging, payload processing and output may throw wherever the source lets
  them; the label of a step says so. `StopRequested` is the operator's signal.
- What `recv`, `send`, `poll` and `accept` return is a script chosen by the environment.

## Where the obvious statement is false

| obvious statement | what holds |
|---|---|
| any four-byte burst is detected | only inside the checksummed bytes or inside the checksum; `FourByteErrorsDecoded` shows that the one pattern the decoder misses is `61 D8` at the end of the data with `F4 EE` at the start of the checksum, in a frame with at least two payload bytes |
| the hysteresis always separates the two states | `BothAtOnce` says exactly when it does not; `EqualRatesFlap` is a configuration the constructor accepts that changes state with every sample |
| good frames lead back to NOMINAL | `GoodWindow`: exactly when the degradation rate is positive or the station was degraded just before |
| the rates keep a degradation and the recovery after it (rate difference) * windowSize samples apart | `PartialWindowDwellsLess` is a counterexample. `DistanceIsKeptExactly`: for a given configuration it holds in all histories iff there are no sizes a < b from minSamples to windowSize and no count k that degrades at a, recovers at b and has b - a below the distance. `PatientRecovery`: minSamples >= recoveryRate * windowSize is enough |
| the map of parked results is bounded | with one decoder it never holds more than one result (`OneDecoderParksOne`); with two or more, some run parks every frame but the first (`TwoDecodersParkAnyNumber`). Bounded are the numbers missing from it (`MissingIsBounded`) |
| decoded + rejected never exceeds received | it does, by one, exactly while the producer has not yet counted a push that the writer has already treated (`CounterLag`, `CounterLagOccurs`) |
| a repeated sequence number is reported as a duplicate | exactly when a smaller number is still missing or it has come twice before (`WhichCheckFires`); otherwise the repeat ends as a gap. In the pipeline neither can be the first error |
| the text decoder accepts what the encoder produces and no more | it has no size limit of its own; `TextIsBijective` says which side enforces it |
| a cut STGA payload is noticed | a signal always is (`PayloadReasons.CutSignal`); a text cut behind its header reads as a shorter text (`PayloadReasons.CutText`) |

## Model

| member | source | states |
|---|---|---|
| `Bytes.ByteBuffer.AppendU64BE` | include/stgs/ByteUtils.hpp:62-70 | the shifting loop appends exactly the eight big-endian bytes of its argument |
| `Bytes.ReadU64` | include/stgs/ByteUtils.hpp:109-119 | the accumulating loop computes the big-endian value at the offset |
| `Bytes.U16RoundTrip` | include/stgs/ByteUtils.hpp:36-40 | reading a written 16-bit value gives it back |
| `Bytes.U32RoundTrip` | include/stgs/ByteUtils.hpp:48-54 | reading a written 32-bit value gives it back |
| `Bytes.U64RoundTrip` | include/stgs/ByteUtils.hpp:62-70 | reading a written 64-bit value gives it back |
| `Bytes.U64Slice` | include/stgs/ByteUtils.hpp:109-119 | writing what was read at an offset gives back those eight bytes |
| `ByteValues.ReadU16Value` | include/stgs/ByteUtils.hpp:87-91 | the 16-bit reader computes the base-256 value of its two bytes, the first counting most |
| `ByteValues.ReadU32Value` | include/stgs/ByteUtils.hpp:97-103 | the same for four bytes |
| `ByteValues.ReadU64Value` | include/stgs/ByteUtils.hpp:109-119 | the same for eight bytes |
| `ByteValues.WritersKeepValues` | include/stgs/ByteUtils.hpp:36-70 | what the writers append has the value of the integer written |
| `Crc32.MakeTable` | src/Crc32.cpp:24-44 | every table entry is eight bit-serial steps of its index |
| `Crc32.Crc32` | src/Crc32.cpp:50-59 | the table-driven loop computes the bit-serial checksum of every byte string |
| `Crc32.TableStep` | src/Crc32.cpp:55-56 | one table look-up equals eight bit-serial steps for every register and byte |
| `Crc32.ChecksumIsMsbChecksum` | include/stgs/Crc32.hpp:19-28 | the reflected checksum is that of the unreflected algorithm with 0x04C11DB7 and its own start value and final XOR, reflected, for every byte string |
| `Crc32.PolynomialsReflected` | include/stgs/Crc32.hpp:22-26 | the two polynomial constants are bit reflections of each other |
| `Crc32.ChecksumAffine` | src/Crc32.cpp:50-59 | the checksum of an XOR of equal-length strings differs by the second one's syndrome |
| `Crc32.ChecksumXor` | src/Crc32.cpp:50-59 | the checksum is affine: three equal-length strings and their XOR |
| `Crc32.FoldInjectiveInState` | src/Crc32.cpp:53-57 | different registers stay different through any further bytes |
| `Crc32.FoldInjectiveInWord` | src/Crc32.cpp:53-57 | different four-byte words lead to different registers |
| `Crc32.BurstChangesChecksum` | src/Crc32.cpp:50-59 | any change inside four consecutive bytes changes the checksum |
| `CrcValues.CheckValue` | include/stgs/Crc32.hpp:26-29 | the checksum of the digits 1 to 9 is 0xCBF43926 |
| `CrcValues.LeadingZeroCounts` | src/Crc32.cpp:50-59 | a zero byte put in front changes the checksum of every string |
| `CrcValues.Residue` | src/Crc32.cpp:50-59 | every string followed by its checksum, lowest byte first, has the checksum 0x2144DF1C |
| `FrameCodec.EncodeFrame` | src/FrameCodec.cpp:91-131 | produces the wire form exactly for encodable frames and refuses all others |
| `FrameCodec.DecodeOfEncode` | src/FrameCodec.cpp:91-213 | decoding an encoded frame gives the frame back, field by field |
| `FrameCodec.EncodeOfDecode` | src/FrameCodec.cpp:141-213 | re-encoding an accepted byte string gives the same bytes |
| `FrameCodec.CodecIsBijective` | src/FrameCodec.cpp:91-213 | a byte string decodes to a frame iff the frame is encodable and this is its encoding |
| `RejectionReasons.WireLayout` | include/stgs/TelemetryFrame.hpp:33-43 | where each field of an encoded frame lies, with its value, from the magic to the checksum |
| `RejectionReasons.SealedFrame` | src/FrameCodec.cpp:153-200 | with a correct checksum over any fields, the first one not allowed (version other than 1, non-finite temperature, battery above 100, status above 3) decides the error code; otherwise the frame is read back |
| `RejectionReasons.DamagedFrame` | src/FrameCodec.cpp:141-182 | an accepted frame altered anyhow at equal length: the error code follows from the first part of the header that changed, else BadCrc iff the checksum does not match |
| `RejectionReasons.OneByteReason` | src/FrameCodec.cpp:141-182 | one altered byte gets the error code of its place: magic, version, length or BadCrc |
| `RejectionReasons.CutFrame` | src/FrameCodec.cpp:143-172 | an accepted frame cut anywhere is too short below 27 bytes and a length mismatch above |
| `RejectionReasons.LengthenedFrame` | src/FrameCodec.cpp:167-172 | bytes behind an accepted frame make it a length mismatch |
| `ErrorDetection.BurstIsRejected` | src/FrameCodec.cpp:174-182 | altering anything inside four consecutive covered bytes of an accepted frame gets it rejected |
| `ErrorDetection.ChecksumFieldIsRejected` | src/FrameCodec.cpp:174-182 | altering only the checksum field of an accepted frame gets it rejected |
| `ErrorDetection.SingleByteIsRejected` | src/FrameCodec.cpp:160-182 | altering any one byte of an accepted frame gets it rejected, header and length included |
| `ErrorDetection.MaybeCorrupt` | apps/satellite_simulator/SimulatorFrameFactory.cpp:130-138 | exactly one byte is changed, and a corrupted valid frame is always rejected; an empty buffer is left alone |
| `ErrorDetection.ErrorPatternUndetected` | src/FrameCodec.cpp:174-182 | an error pattern passes the checksum iff its own syndrome equals its own last four bytes |
| `ErrorDetection.FourByteErrors` | src/FrameCodec.cpp:174-182 | a non-zero error within four consecutive bytes passes iff it is the one blind spot across the data/checksum boundary |
| `ErrorDetection.FourByteErrorsDecoded` | src/FrameCodec.cpp:141-200 | an accepted frame with a non-zero error within four consecutive bytes is accepted iff the error is that blind spot and the frame has at least two payload bytes |
| `ErrorDetection.BoundaryBurstIsAccepted` | src/FrameCodec.cpp:174-182 | that blind spot turns every frame with at least two payload bytes into another accepted frame |
| `CrcOrder.SquareOfPower` | src/Crc32.cpp:24-44 | the linear map given by the squares of the 32 bits squares every power of x, a bit step being a multiplication by x |
| `CrcOrder.OrderIsLarge` | src/Crc32.cpp:24-44 | no number of bit steps from 1 to 65536 brings a register back |
| `BitErrors.OneBitSyndrome` | src/Crc32.cpp:50-59 | a flipped covered bit moves the checksum by the power of x that belongs to its distance from the end |
| `BitErrors.TwoBitErrorsAreRejected` | src/FrameCodec.cpp:174-182 | flipping any two bits of an accepted frame, in header, payload or checksum and at any distance, gets it rejected |
| `StreamFraming.StreamFrameExtractor.Feed` | src/FrameCodec.cpp:250-294 | one call returns the frames, and keeps the bytes, that the framing of old buffer plus new bytes prescribes |
| `StreamFraming.Fragmentation` | src/FrameCodec.cpp:250-294 | feeding two fragments gives the frames and the buffer of feeding their concatenation |
| `StreamFraming.ChunkingIsIrrelevant` | src/FrameCodec.cpp:250-294 | from any buffer a feed leaves behind, any list of fragments gives the result of the whole stream at once |
| `StreamFraming.RestIsSettled` | src/FrameCodec.cpp:250-294 | nothing more can be extracted from what a feed keeps |
| `StreamFraming.RestIsBounded` | src/FrameCodec.cpp:259-289 | after any feed fewer than 4123 bytes are kept |
| `StreamParsing.ExtractExactly` | src/FrameCodec.cpp:250-294 | frames and rest are a result of feed iff they form the leftmost reading of the stream: disjoint substrings in order, each starting at the first live magic |
| `StreamParsing.ParseIsExtract` | src/FrameCodec.cpp:250-294 | every leftmost reading of a stream is the extractor's |
| `StreamParsing.ExtractIsParse` | src/FrameCodec.cpp:250-294 | the extractor's result is a leftmost reading |
| `StreamParsing.MagicAtIs` | src/FrameCodec.cpp:33-38 | what the search looks for are the four bytes of the frame magic, big-endian |
| `StreamParsing.FramesAreFramed` | src/FrameCodec.cpp:256-292 | every frame of every stream begins with the magic, is as long as its length field says and has 27 to 4123 bytes |
| `StreamParsing.Resynchronisation` | src/FrameCodec.cpp:256-293 | noise in which the four magic bytes do not occur, even with three of them appended, between well-framed frames costs no frame and adds none |
| `StreamParsing.ExactRecovery` | src/FrameCodec.cpp:256-293 | frames back to back come out exactly and leave an empty buffer |
| `StreamParsing.WireIsWellFramed` | src/FrameCodec.cpp:91-131 | what the encoder produces is what framing recognises |
| `TcpServer.TcpServer.DrainClient` | src/NetworkServerTcp.cpp:171-201 | the recv loop delivers and buffers what the script of results prescribes, and says when to drop the client |
| `TcpServer.TcpServer.ServeClient` | src/NetworkServerTcp.cpp:160-212 | serving index i touches client i alone, delivers its frames and erases it exactly when it must go |
| `TcpServer.TcpServer.ServeSnapshot` | src/NetworkServerTcp.cpp:158-213 | the reverse traversal keeps every index valid and treats each polled client with its own event |
| `TcpServer.TcpServer.PollRound` | src/NetworkServerTcp.cpp:133-241 | a round leaves the survivors in order followed by the newly accepted clients |
| `TcpServer.DrainIsExtract` | src/NetworkServerTcp.cpp:171-201 | a client's frames and buffer depend on its bytes, not on how recv cut them |
| `TcpServer.ConnectionsAreIsolated` | src/NetworkServerTcp.cpp:119-246 | after any poll rounds, each connection has delivered exactly the framing of its own stream, whatever the interleaving |
| `TcpConnections.DrainRemoves` | src/NetworkServerTcp.cpp:171-201 | the recv loop drops the client iff it reaches the end of the stream or an error before running dry, signals aside |
| `TcpConnections.WhoIsConnected` | src/NetworkServerTcp.cpp:158-241 | in every run, an accepted connection is still served iff none of its events so far was an error, a hang-up, or readable data that broke off |
| `TcpConnections.StreamsAreWhatWasReceived` | src/NetworkServerTcp.cpp:169-201 | in each round a connection's stream grows by exactly the data received before the first result that is neither data nor EINTR, hang-up or not |
| `StationHealth.MakeMonitor` | src/StationHealth.cpp:26-65 | construction succeeds iff the configuration is valid |
| `StationHealth.StationHealthMonitor.RecordSample` | src/StationHealth.cpp:85-136 | window, state and reported transition are those of the specification |
| `StationHealth.StationHealthMonitor.MakeSnapshot` | src/StationHealth.cpp:150-171 | the counting loop counts the rejected and the critical samples of the window |
| `StationHealth.WindowIsRecentHistory` | src/StationHealth.cpp:93-97 | after any history the window is its last windowSize samples |
| `StationHealth.CountsOfHistory` | src/StationHealth.cpp:93-131 | a transition reports the counts of the last samples and the new state, and none happens before minSamples |
| `StationHealth.CriticalDwell` | src/StationHealth.cpp:106-121 | a degradation by critical frames and any recovery are at least the difference of the two thresholds apart |
| `StationHealth.RejectionDwellAnyWindow` | src/StationHealth.cpp:93-121 | for windows of any size, what the two rates let the rejection count fall between a degradation by rejection rate and any recovery is at most the number of samples that left the window, or came, in between |
| `StationHealth.GrowingWindowDwell` | src/StationHealth.cpp:93-121 | before the window is full, recovering at size b after degrading at size a takes degradedRate * a <= recoveryRate * b |
| `StationHealth.RejectionDwell` | src/StationHealth.cpp:106-121 | if the window is full at the later of the two, a degradation for which the rejection rate is a reason and any recovery are at least (rate difference) * windowSize samples apart |
| `DwellTime.DistanceIsKeptExactly` | src/StationHealth.cpp:26-136 | for every valid configuration: in all histories a degradation by rejection rate and a later recovery are (rate difference) * windowSize samples apart iff the finitely many sizes and counts of the growing window hold no short cut |
| `DwellTime.TakeShortCut` | src/StationHealth.cpp:93-121 | each such short cut is taken by a history that breaks the distance |
| `DwellTime.PatientRecovery` | src/StationHealth.cpp:99-121 | minSamples >= recoveryRate * windowSize keeps the distance in all histories |
| `DwellTime.PatientDwell` | src/StationHealth.cpp:99-121 | the same for one pair, and for a degradation after a recovery if minSamples >= (1 - degradedRate) * windowSize |
| `StationHealth.BothAtOnce` | src/StationHealth.cpp:106-121 | a snapshot satisfies both conditions iff both rates equal its rejection rate and its critical count allows recovery |
| `StationHealth.HysteresisHolds` | src/StationHealth.cpp:49-52 | distinct rates leave no snapshot that satisfies both conditions |
| `StationHealth.EqualRatesFlap` | src/StationHealth.cpp:49-52 | an accepted configuration with equal rates changes state with every good sample |
| `StationHealth.GoodWindow` | src/StationHealth.cpp:105-121 | after a window of good frames the state is NOMINAL iff the degradation rate is positive or the state was DEGRADED just before |
| `StationHealth.CriticalWindow` | src/StationHealth.cpp:105-121 | a window of critical frames always ends in DEGRADED |
| `StationHealth.DisabledIsInert` | src/StationHealth.cpp:88-91 | a disabled monitor keeps no sample and stays NOMINAL |
| `HealthOfResults.RejectedFramesDegrade` | src/StationHealth.cpp:67-121 | after a window of rejected frames the state is DEGRADED iff the recovery rate is below 1 or it was NOMINAL just before |
| `HealthOfResults.CriticalFramesDegrade` | src/StationHealth.cpp:18-121 | a window of frames with status 2 or 3 always ends in DEGRADED |
| `HealthOfResults.GoodFramesRecover` | src/StationHealth.cpp:18-121 | after a window of frames with status 0 or 1 the state is NOMINAL iff the degradation rate is positive or it was DEGRADED just before |
| `HealthOfResults.TransitionsTellTheState` | src/StationHealth.cpp:123-136 | the transitions reported form a chain from NOMINAL to the present state, one for each sample that changed it |
| `HealthOfResults.TransitionsOfRun` | apps/ground_station/GroundStationWorkers.cpp:113-138 | they do so at every moment of every run of the pipeline |
| `Replay.FrameFileWriter.WriteFrame` | src/Replay.cpp:75-92 | a frame within bounds is appended as one record; others are refused and leave the file as it was |
| `Replay.FrameFileReader.ReadNext` | src/Replay.cpp:124-148 | returns the next record, the end, or an error, as the remaining bytes prescribe |
| `Replay.OpenReader` | src/Replay.cpp:103-117 | opening succeeds iff the file begins with the eight header bytes, and then reading starts right behind them |
| `Replay.Replay` | src/Replay.cpp:103-148 | reading to the end gives the specified reading of the whole file |
| `Replay.FormatIsBijective` | src/Replay.cpp:26-148 | a byte string reads completely as a list iff every frame is within bounds and it is the file written for that list |
| `Replay.Truncation` | src/Replay.cpp:124-148 | a prefix of a file reads completely iff it ends on a record boundary, and then as the frames before it |
| `ReplayDamage.CutFile` | src/Replay.cpp:42-148 | a file cut anywhere yields the records complete before the cut, and then the normal end, a truncated length or a truncated frame as the cut lies; in the header, nothing |
| `ReplayDamage.WrongLength` | src/Replay.cpp:138-142 | behind any records, a length below 27 or above 4123 ends the reading with that error, whatever follows |
| `ReplayDamage.WrongHeader` | src/Replay.cpp:103-117 | the header is refused iff eight bytes are there and they are not the format's |
| `ApplicationPayload.EncodeText` | src/ApplicationPayload.cpp:70-83 | produces the text wire form iff the text fits, otherwise refuses |
| `ApplicationPayload.EncodeSignal` | src/ApplicationPayload.cpp:85-118 | produces the signal wire form iff metadata, sample count and samples are valid, otherwise refuses |
| `ApplicationPayload.ReadSamples` | src/ApplicationPayload.cpp:190-201 | the sample loop returns all samples iff all are finite |
| `ApplicationPayload.TextIsBijective` | src/ApplicationPayload.cpp:132-162 | a payload decodes to a text iff it is its encoding; the limits on text and payload size coincide |
| `ApplicationPayload.SignalIsBijective` | src/ApplicationPayload.cpp:85-203 | within 4096 bytes, a payload decodes to a signal iff the signal is encodable and this is its encoding |
| `ApplicationPayload.SignalRoundTrip` | src/ApplicationPayload.cpp:105-203 | decoding an encoded signal gives it back, bit patterns included |
| `ApplicationPayload.SignalCanonical` | src/ApplicationPayload.cpp:164-203 | re-encoding any decoded signal gives the same bytes |
| `ApplicationPayload.MagnitudeIncreasing` | src/ApplicationPayload.cpp:58-66 | the exact values used for the Nyquist comparison order as the floats do |
| `FloatValues.MagnitudeOfOne` | src/ApplicationPayload.cpp:58-66 | the scaled value of 1.0 is 2^149 |
| `FloatValues.SmallMagnitude` | src/ApplicationPayload.cpp:58-66 | the patterns of the first two binades are their own scaled values |
| `FloatValues.NextBinadeDoubles` | src/ApplicationPayload.cpp:58-66 | one step of the exponent doubles the value |
| `FloatValues.FiniteIsBelow` | src/ApplicationPayload.cpp:60-63 | finite patterns are exactly those below 2^128 |
| `FloatValues.HalfExists` | src/ApplicationPayload.cpp:64 | half of every sample rate is exactly a binary32 number |
| `FloatValues.NyquistOnPatterns` | src/ApplicationPayload.cpp:58-66 | metadata is valid iff the rate is not zero, both floats are finite, the amplitude is not below zero and the frequency's pattern lies strictly between those of 0 and of half the sample rate |
| `PayloadReasons.TextLayout` | src/ApplicationPayload.cpp:70-83 | where each field of an encoded text lies, with its value |
| `PayloadReasons.SignalLayout` | src/ApplicationPayload.cpp:105-118 | where each field and sample of an encoded signal lies, with its value |
| `PayloadReasons.CutText` | src/ApplicationPayload.cpp:132-162 | a cut text payload is opaque, a truncated header, too short, or a shorter text, as the cut lies |
| `PayloadReasons.CutSignal` | src/ApplicationPayload.cpp:132-181 | a cut signal payload is never taken for a signal, and which error it gets |
| `PayloadReasons.WholeSignal` | src/ApplicationPayload.cpp:164-203 | a complete signal payload is read back iff its metadata is valid and all samples finite, else invalid metadata is reported |
| `PayloadReasons.AlteredHeader` | src/ApplicationPayload.cpp:132-205 | altering one header byte of a decodable payload makes it opaque, of an unsupported version or of an unknown kind |
| `BlockingQueue.BlockingQueue.PushSection` | include/stgs/BlockingQueue.hpp:43-56 | waits, refuses or appends exactly as the predicate and the closed flag say |
| `BlockingQueue.BlockingQueue.PopSection` | include/stgs/BlockingQueue.hpp:62-76 | waits, ends or takes the front; a closed queue is drained before it ends |
| `BlockingQueue.StepKeepsInvariant` | include/stgs/BlockingQueue.hpp:43-87 | every step of every thread keeps bounds, order and freedom from lost wake-ups |
| `BlockingQueue.ReachableIsSafe` | include/stgs/BlockingQueue.hpp:43-87 | in every reachable state waiting consumers have a wake-up due for each item, producers for each free slot, and after close only while a broadcast is due |
| `BlockingQueue.SleepersHaveReason` | include/stgs/BlockingQueue.hpp:43-87 | once no notification is due, whoever sleeps has a false predicate |
| `BlockingQueue.SpuriousWakeUpsAreHarmless` | include/stgs/BlockingQueue.hpp:43-76 | any sleeper may wake without a notification, and while its predicate is false it goes back to sleep and leaves the monitor as it was |
| `BlockingQueue.UnsettledCanStep` | include/stgs/BlockingQueue.hpp:43-87 | while a notification or a woken thread is left, an internal step is enabled |
| `BlockingQueue.InternalStepsEnd` | include/stgs/BlockingQueue.hpp:43-87 | internal steps strictly decrease a measure |
| `BlockingQueue.EveryCallIsAnswered` | include/stgs/BlockingQueue.hpp:43-87 | in every reachable state the results given are those of an ideal bounded queue replayed in order, which is left as this one is, and each call of each thread has been answered once, with its own argument, or still waits |
| `BlockingQueue.FirstInFirstOut` | include/stgs/BlockingQueue.hpp:43-76 | the values popped, followed by the queue, are the values pushed, in order |
| `OrderedWriter.Writer.WriterLoop` | apps/ground_station/GroundStationWorkers.cpp:88-156 | the nested loops leave counters, health, export, position and outcome as the specification prescribes, for any order of arrival |
| `OrderedWriter.Writer.Handle` | apps/ground_station/GroundStationWorkers.cpp:113-138 | one result is counted, shown to the monitor and exported if it is a frame |
| `OrderedWriter.AnyArrivalOrder` | apps/ground_station/GroundStationWorkers.cpp:88-150 | whatever the order, the results treated are a prefix in sequence order; the loop completes iff the numbers 0, 1, ... arrive once each, and then has treated all |
| `OrderedWriter.WhichCheckFires` | apps/ground_station/GroundStationWorkers.cpp:96-148 | for all arrivals: the loop completes iff 0, 1, ... come once each; it reports a duplicate iff some number comes again while a smaller one is missing, or a third time; a gap in all other cases |
| `Pipeline.AsyncFailure.CaptureError` | apps/ground_station/GroundStationPipeline.cpp:13-20 | the first error is kept |
| `Pipeline.GroundStationPipeline.FailPipeline` | apps/ground_station/GroundStationPipeline.cpp:124-138 | stores the error, stops the input and closes both queues: the four steps of the protocol in order |
| `Pipeline.GroundStationPipeline.SubmitFrame` | apps/ground_station/GroundStationPipeline.cpp:140-151 | numbers the frame and offers it: the object is then in the state to which the producer's protocol steps lead, and the call is left waiting iff the push must wait |
| `Pipeline.GroundStationPipeline.Offer` | apps/ground_station/GroundStationPipeline.cpp:145-150 | the push of a submit, at first or after a wake-up: pushed and counted, refused and the input stopped, or waiting, as the protocol steps say |
| `PipelineInvariant.StepKeepsInv` | apps/ground_station/GroundStationPipeline.cpp:57-151 | every step of every thread, throwing ones included, keeps the invariant |
| `PipelineInvariant.ReachableInv` | apps/ground_station/GroundStationPipeline.cpp:57-151 | the invariant holds in every reachable state, for any number of decoders and any capacity |
| `PipelineInvariant.FrontIsNew` | apps/ground_station/GroundStationWorkers.cpp:98-102 | the duplicate check can never fire |
| `PipelineInvariant.GapHasACause` | apps/ground_station/GroundStationWorkers.cpp:145-148 | the gap check only fires after some other error has been stored |
| `PipelineTheorems.EveryNumberIsInOnePlace` | apps/ground_station/GroundStationWorkers.cpp:92-189 | at every moment each pushed number is exactly once in the raw queue, a decoder, the decoded queue, the parked or treated results, or the lost ones |
| `PipelineTheorems.MissingIsBounded` | apps/ground_station/GroundStationWorkers.cpp:92-143 | the numbers missing below those taken are exactly as many as are in decoders, in the decoded queue or lost; both queues respect the capacity; so before any failure at most N + capacity are missing |
| `PipelineTheorems.ExpectedIsOnItsWay` | apps/ground_station/GroundStationWorkers.cpp:105-111 | while results are parked, the expected number is in a decoder, in the decoded queue or lost to a failure |
| `PipelineTheorems.OutputFollowsInput` | apps/ground_station/GroundStationWorkers.cpp:105-142 | at every moment counters, health, transitions and export are those of the treated prefix of the input; only after the writer failed may the next result be counted, and observed and exported or not; decoded + rejected exceeds received by at most one |
| `PipelineLimits.CounterLag` | apps/ground_station/GroundStationPipeline.cpp:145-150 | decoded + rejected exceeds received iff the producer is about to count a push and everything pushed has been treated; then by one |
| `PipelineLimits.CounterLagOccurs` | apps/ground_station/GroundStationPipeline.cpp:145-150 | whatever the options, a run in which a frame is treated before it is counted as received |
| `PipelineLimits.OneDecoderParksOne` | apps/ground_station/GroundStationWorkers.cpp:92-143 | with one decoder at most one result is parked in every reachable state |
| `PipelineLimits.TwoDecodersParkAnyNumber` | apps/ground_station/GroundStationWorkers.cpp:92-143 | with two decoders or more and any capacity, for every number below that of the frames a run that parks so many |
| `PipelineTheorems.ExportsNeverDisagree` | apps/ground_station/GroundStationWorkers.cpp:77-87 | at any two moments of any two runs on one input, one export is a prefix of the other |
| `PipelineTheorems.CleanReturnIsComplete` | apps/ground_station/GroundStationPipeline.cpp:57-71 | a return without an error means everything submitted was treated in order and counted, nothing is left or lost, and without a stop request it was a replay whose whole input was submitted |
| `PipelineTheorems.CleanReturnsAgree` | apps/ground_station/GroundStationWorkers.cpp:77-87 | two clean returns after the same number of frames agree on counters, health, transitions and export, whatever the number of decoders, the capacity and the schedule |
| `PipelineTheorems.FirstErrorIsTheOneReported` | apps/ground_station/GroundStationPipeline.cpp:13-29 | a stored error is never replaced nor followed by a clean return, and is never the gap or the duplicate check |
| `PipelineCauses.ErrorHasItsCause` | apps/ground_station/GroundStationPipeline.cpp:57-71 | a stored error is that of a thread which has thrown before: the input's, a decoder's or the output's |
| `PipelineCauses.RethrowsExactlyThrows` | apps/ground_station/GroundStationPipeline.cpp:57-71 | run() throws iff something threw in one of its threads, and it throws one of the exceptions thrown |
| `PipelineCauses.ThrowCanEndTheRun` | apps/ground_station/GroundStationPipeline.cpp:124-138 | from every state reached without a throw, a throw wherever the source allows one can be what run() reports |
| `PipelineCauses.StoppedForAReason` | apps/ground_station/GroundStationPipeline.cpp:124-151 | the running flag is down iff a stop was requested, a push refused, a replay ended or a failing thread has come to lower it |
| `PipelineCauses.InputEndsStopped` | apps/ground_station/GroundStationInput.cpp:36-62 | whatever ended the input, the running flag is down from then on |
| `PipelineProgress.NeverDeadlocks` | apps/ground_station/GroundStationPipeline.cpp:99-138 | in every reachable state that is neither final nor that of a network station listening, some thread can go on without throwing |
| `PipelineProgress.WorkKeepsMoving` | apps/ground_station/GroundStationWorkers.cpp:165-189 | while a pushed frame is untreated and nothing has failed, a decoder or the writer can go on, whatever the producer does |
| `PipelineProgress.EveryRunEnds` | apps/ground_station/GroundStationPipeline.cpp:57-122 | no run has more than 10 * frames + 5 * decoders + 27 steps |
| `PipelineProgress.StuckMeansFinished` | apps/ground_station/GroundStationPipeline.cpp:99-122 | where nothing can go on, not even a stop request, run() has returned or thrown, every worker has exited, and it threw iff an error is stored |
| `PipelineProgress.RestMeansAllTreated` | apps/ground_station/GroundStationPipeline.cpp:57-71 | a listening network station in which nothing goes on by itself has stored no error and has treated everything it was sent |
| `PipelineProgress.UndisturbedRunsAgree` | apps/ground_station/GroundStationPipeline.cpp:57-71 | without a throw or a stop, every schedule followed to its end has produced the results of the whole input; a replay has returned cleanly, a network station listens on |
| `PipelineProgress.WorkersLeaveNoTrace` | apps/ground_station/GroundStationWorkers.cpp:77-87 | undisturbed runs end with the same counters, health, transitions and export, whatever the number of decoders, the capacity, the schedule, and whether the frames come from the network or a replay |
| `PipelineProgress.CanAlwaysFinish` | apps/ground_station/GroundStationPipeline.cpp:99-138 | from every reachable state a schedule without further throws ends the run: it submits nothing once the input is stopped, and only a listening station has to be asked to stop |
| `PipelineMonitors.Projection` | include/stgs/BlockingQueue.hpp:43-87 | every run of the threads on the condition-variable monitors is, in what the threads do, a run of the pipeline on ideal queues |
| `PipelineMonitors.AnswerIsEnabled` | include/stgs/BlockingQueue.hpp:43-87 | an answered push or pop is always a step its caller can take |
| `PipelineMonitors.ReachableTied` | apps/ground_station/GroundStationPipeline.cpp:57-151 | in every reachable state the monitors hold the pipeline's queues, whoever waits in one is where its code calls it with what it has in hand, and no wake-up is lost |
| `PipelineMonitors.WholeNeverDeadlocks` | apps/ground_station/GroundStationPipeline.cpp:99-138 | deadlock freedom with both monitors: something can happen without a throw, a stop or a spurious wake-up until the run is over or the station listens |
| `PipelineMonitors.StepPays` | include/stgs/BlockingQueue.hpp:43-87 | every step of threads and monitors uses up at least one unit of a potential, and a spurious wake-up adds at most one |
| `PipelineMonitors.EveryWholeRunEnds` | include/stgs/BlockingQueue.hpp:43-87 | a run of threads and monitors with k spurious wake-ups has at most (2 N + 5)(10 F + 5 N + 27) + 12 (N + 1) + 2 k steps, for N decoders and F frames |
| `PipelineMonitors.WholeCanAlwaysFinish` | apps/ground_station/GroundStationPipeline.cpp:99-138 | from every reachable state of threads and monitors an orderly schedule ends the run |
| `PipelineMonitors.WholeRunsAgree` | apps/ground_station/GroundStationPipeline.cpp:57-71 | with both monitors, every undisturbed schedule followed to its end has produced the results of the whole input |
| `EndToEnd.SendAll` | apps/satellite_simulator/SimulatorSocket.cpp:85-108 | the bytes taken are a prefix of the frame, all of it iff the call succeeds, as long as the partial writes add up to; it fails at the first error or zero and survives EINTR |
| `EndToEnd.PrefixRecovery` | src/FrameCodec.cpp:250-294 | of any prefix of a stream of frames, the complete frames come out and the incomplete one waits |
| `EndToEnd.DeliveryIsExact` | apps/satellite_simulator/SimulatorSocket.cpp:85-108 | encoded frames sent in any pieces and received in any chunks decode to exactly the original list |
| `EndToEnd.ConnectionDelivery` | src/NetworkServerTcp.cpp:119-246 | at any moment of any run of the server, a connection has delivered a prefix of its sender's frames, and all of them once all bytes are there |
| `EndToEnd.ExportIsWhatWasSent` | apps/ground_station/GroundStationPipeline.cpp:57-71 | one simulator: once all its frames are submitted, a clean return has exported the same list, in order, none rejected |
| `EndToEnd.ExportByConnection` | src/NetworkServerTcp.cpp:119-246 | many senders: the share of each sender of encoded frames in the export of a clean return is the list of its frames that arrived in full, in order, whatever the others sent |
| `EndToEnd.ExportIsWhatWasRecorded` | apps/ground_station/GroundStationInput.cpp:36-62 | from a capture of encoded frames to the export: replayed to its end, a clean return has exported the same list, in order, none rejected |

## Left out

- StationHealth.MakeMonitor: takes rates that are numbers; the source's comparisons let NaN through, which the command line rejects beforehand (include/stgs/CliParsing.hpp:120-135).
- StationHealth.StationHealthMonitor.RecordSample: rates are exact reals, so the rounding of the source's double division is not covered.
- The memory model: a critical section is one step of the monitor, an atomic operation one step of the pipeline, and sequential consistency is taken for granted.
- Runs with spurious wake-ups for ever: they are the only runs on the monitors that do not end (`EveryWholeRunEnds`).
- How many frames a stopped replay still submits: the code finishes the one under way, the model lets it go on, so what is proved of all runs covers more runs than there are.
- Wrap-around of the 64-bit sequence numbers and counters.
- A failure to store the first error, to start a thread or to allocate in `feed`; the callback of the TCP loop throwing.
- The text of errors, warnings and the reason of a transition; logging, terminal output, the progress thread, CSV and JSON formatting. The export is the list of frames written, and `finish` only succeeds or throws.
- What the writer does with STGA payloads (display, filters, metrics, the counter of application errors), except that it may throw.
- Sockets, descriptors and their reuse, UDP, port diagnostics, signal handling; connections are numbered instead.
- File-system errors of the capture file: a file is its bytes.
- Signal generation and filtering in floating point, random choices, clocks and replay pacing.
- Command-line parsing, except that at least one decoder thread is required.
