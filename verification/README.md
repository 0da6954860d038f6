# Verified model of the telemetry pipeline

This project models the OTLP pipeline of the `rolly` crate in Dafny and proves what it promises: that requests survive
encoding, batching and decoding, that the exporter accounts for every message and exactly what its flush and shutdown
settle, that metrics are folds over everything recorded, and that spans are sampled with their root. Verify it with
`dafny verify dfyconfig.toml`.

## How it is built

| file | what it holds |
|---|---|
| `Bytes.dfy`, `Wire.dfy`, `WireReader.dfy`, `WireVectors.dfy` | integers and byte strings; the wire format as a specification: varints, records, message trees, a strict schema-driven parser, readers that pick fields out of a parsed message, and the published examples |
| `ProtoWriter.dfy` | the growable buffer with every writer operation, in place, proved against the specification |
| `OtlpCommon.dfy`, `OtlpTrace.dfy`, `OtlpLog.dfy`, `OtlpMetrics.dfy` | the encoders as methods that append to the buffer, decoders, and the round trips |
| `Exporter.dfy`, `ExporterProperties.dfy` | the exporter as a state machine whose events are the atomic steps of producers, loop and tasks; the invariant and the properties of every run |
| `ExporterHistories.dfy` | what a run's events say of single tasks, sends and steps: retries, admission, permits, leaving |
| `ExporterLoop.dfy` | the exporter as an object updated in place; each operation is one event of the state machine |
| `EndToEnd.dfy` | encoders, exporter and decoder composed |
| `Sorting.dfy` | sorting by a total order and its uniqueness |
| `Attributes.dfy`, `Aggregation.dfy`, `Instruments.dfy`, `Histograms.dfy`, `Registry.dfy` | attribute keys, the keyed map as a fold over history, the three instruments as objects, and get-or-create by name under concurrency |
| `HashCollisions.dfy` | which attribute lists the hash tells apart |
| `MetricsExport.dfy` | one round of the metrics loop over all instruments: snapshots, request, and what a collector reads |
| `Sampling.dfy`, `SpanLayer.dfy`, `OtlpLayer.dfy` | the sampling decision and its inheritance down the span forest, the callbacks in place, and the way of a closed span or an event to the collector |

Each operation that changes state is a method proved against a function of the old state; what the
program promises is then proved about those functions, over all runs. The decoders, the parser and the
reference descriptions (`Norm*`, `Describes`, `FirstKeys`, `Summarises`, `Sees`, `Expected`, `First`, `HasRoom`) are written
independently of the code they are compared with.

Strings are their UTF-8 bytes and doubles that are only carried are 64-bit patterns. The wire format follows
the Protocol Buffers encoding guide (Base 128 Varints, Message Structure, Length-Delimited Records,
Packed Repeated Fields, Last One Wins) and the field numbers of opentelemetry-proto.

## Where code and documentation differ

The model follows the code in each case. For each there is a theorem with the exact condition and an instance.

- `shutdown` is documented as stopping "after draining remaining messages" (src/exporter.rs:158). The loop leaves at the
  first Shutdown accepted; all accepted data is settled if and only if none was accepted behind it
  (`ShutdownSettlesIff`). In the run of `ShutdownMayStrand` a message is neither posted nor counted as dropped.
- The sampling decision is documented as a function of the trace id (the crate's README.md:115). A span inherits the
  decision of its root, whatever trace id it carries itself. It is decided by its own id at every rate if and only if that
  has the ratio of its root's (`OwnIdDecidesIff`); `OwnIdMayDisagree` gives a run for every id with a ratio of its own.
- A counter is documented as monotonic (src/metrics.rs:411). What is shown of a key never decreases if and only if its adds
  sum up to less than 2^63 (`CounterMonotonicIff`); a single add of 2^63 shows as -2^63 (`CounterMayFall`).
- A flush is documented to block until the exporter has processed everything (src/exporter.rs:150). When the call of an
  accepted Flush returns, by its reply or because the loop is gone, all data ahead of it is settled if and only if none of
  that was accepted behind the first Shutdown (`FlushSettlesIff`); in the run of `FlushMayReturnUnsettled` it is not. A flush
  that finds the channel closed returns at once, and `ShutdownSettlesIff` says what is settled then. The call can return if
  and only if there is a permit to give or nothing to post ahead of it (`FlushReturnsIff`, and `DrainEndsIff` for a
  drain that has begun); that of `DrainMayHang` cannot. `init` fixes four concurrent exports (src/lib.rs:138), so zero
  permits is within reach only of a direct `Exporter::start`.
- OTLP's explicit bounds are upper-inclusive, the program's lower-inclusive (src/metrics.rs:532). A value is in its
  upper-inclusive bucket if and only if it is no boundary (`UpperInclusiveIff`, with `BoundaryGoesUp` for each boundary),
  and the counts of a data point are the upper-inclusive ones if and only if no observation equals a boundary
  (`CountsAreUpperIff`).

## Model

| member | source | states |
|---|---|---|
| Wire.VarintLength | src/proto.rs:7-13 | a varint takes at most k bytes exactly for the values below 128^k |
| Wire.VarintLimits | src/proto.rs:118-167 | five length bytes suffice exactly below 2^35; every 64-bit value takes at most ten |
| Wire.VarintRoundTrip | src/proto.rs:7-13 | an encoded varint followed by anything reads back as its value and its own length |
| Wire.VarintShortest | src/proto.rs:7-13 | the encoding is the unique shortest byte string that decodes to the value |
| Wire.NormKeepsBytes | src/proto.rs:20-109 | leaving out the values proto3 skips, at every depth, does not change the bytes |
| Wire.ParseAppend | src/exporter.rs:321-348 | parsing distributes over concatenation, the rule that joined payloads rely on |
| Wire.FieldRoundTrip | src/proto.rs:20-109 | each kind of field parses back as its normal form |
| Wire.MessageRoundTrip | src/proto.rs:16-109 | every message tree parses back as itself minus skipped defaults, all bytes consumed |
| Wire.EmitInjective | src/proto.rs:16-109 | two messages of one schema have the same bytes exactly if they normalise alike |
| WireVectors.VarintDigits | src/proto.rs:7-13 | byte i of a varint is digit i of the value in base 128, marked on every byte but the last |
| WireVectors.LeDigits | src/proto.rs:59-71 | byte i of a fixed-width integer is digit i in base 256 |
| WireVectors.SignedWords | src/otlp_metrics.rs:36-58 | signed words are two's complement: the one value in range that agrees modulo 2^64 |
| WireVectors.IntegerExample | src/proto.rs:20-28 | the encoding guide's message with 150 in field 1 has its published bytes |
| WireVectors.StringExample | src/proto.rs:39-55 | the encoding guide's message with a string in field 2 has its published bytes |
| WireVectors.NestedExample | src/proto.rs:102-109 | the encoding guide's nested message has its published bytes |
| WireVectors.FixedExample | src/proto.rs:59-65 | a fixed-width field has wire type 1 and its least significant byte first |
| ProtoWriter.EncodeVarintToSlice | src/proto.rs:158-167 | writes the same bytes as the growable form into five bytes, for every value below 2^35, and returns their number |
| ProtoWriter.VarintTagLen | src/proto.rs:170-179 | counts exactly the bytes the tag writer writes |
| ProtoWriter.ShiftedLeft | src/proto.rs:146-150 | overlapping left shift, patch and truncation leave head, length and body |
| ProtoWriter.ByteBuffer.EncodeVarint | src/proto.rs:7-13 | appends the specified varint, old bytes untouched |
| ProtoWriter.ByteBuffer.EncodeTag | src/proto.rs:16-18 | appends the tag of field number and wire type |
| ProtoWriter.ByteBuffer.EncodeVarintField | src/proto.rs:22-28 | appends the field, or nothing for zero |
| ProtoWriter.ByteBuffer.EncodeVarintFieldAlways | src/proto.rs:32-35 | appends the field, zero included |
| ProtoWriter.ByteBuffer.EncodeBytesField | src/proto.rs:39-55 | appends a string or bytes field, or nothing if empty |
| ProtoWriter.ByteBuffer.EncodeFixed64Field | src/proto.rs:59-65 | appends eight little-endian bytes behind the tag, or nothing for zero |
| ProtoWriter.ByteBuffer.EncodeFixed64FieldAlways | src/proto.rs:68-71 | the same, zero included |
| ProtoWriter.ByteBuffer.EncodePackedFixed64Field | src/proto.rs:75-97 | appends all values as one packed record, or nothing for none |
| ProtoWriter.ByteBuffer.EncodeMessageField | src/proto.rs:102-109 | the allocating nested message appends the framed body, or nothing if empty |
| ProtoWriter.ByteBuffer.OpenMessage | src/proto.rs:122-129 | the part before the closure: tag and five reserved bytes |
| ProtoWriter.ByteBuffer.CloseMessage | src/proto.rs:131-155 | for any buffer contents, field and body below 2^35 the in-place form leaves the old bytes and adds what the allocating form adds; an empty body restores the buffer; no index is out of range |
| ProtoWriter.ByteBuffer.PatchLength | src/proto.rs:142-154 | both branches of the patch leave the head, the shortest length and the body |
| ProtoWriter.ByteBuffer.EncodeMessageFieldInPlace | src/proto.rs:118-155 | in-place calls nested to any depth append the framed specification of the tree |
| OtlpCommon.EncodeAnyValue | src/otlp_trace.rs:68-76 | appends the value by its oneof field; zero and false are written, empty strings are not |
| OtlpCommon.BooleanBytes | src/otlp_trace.rs:68-76 | a boolean is written as zero or one |
| OtlpCommon.EncodeKeyValue | src/otlp_trace.rs:79-84 | appends key and nested value |
| OtlpCommon.EncodeResource | src/otlp_trace.rs:87-93 | appends the attributes in order |
| OtlpCommon.EncodeScope | src/otlp_trace.rs:96-99 | appends name and version |
| OtlpCommon.AnyValueReads | src/otlp_trace.rs:68-76 | a value decodes to itself; only an empty string or byte string becomes absent |
| OtlpCommon.KeyValueReads | src/otlp_trace.rs:79-84 | an attribute decodes to itself; only an empty key with an empty value vanishes |
| OtlpCommon.RequestRoundTrip | src/otlp_trace.rs:140-168 | the envelope of a request decodes to its input for any item that round-trips; an empty scope or resource is absent |
| OtlpCommon.DecodeConcat | src/exporter.rs:321-349 | a payload joined from requests decodes to the entries of the requests, in order |
| OtlpTrace.EncodeStatus | src/otlp_trace.rs:102-105 | appends message and code |
| OtlpTrace.EncodeSpan | src/otlp_trace.rs:111-132 | appends the span's fields in the order of the code |
| OtlpTrace.CodesAreNumbered | src/otlp_trace.rs:21-40 | span kinds and status codes have the protocol's consecutive numbers from zero, no two alike |
| OtlpTrace.StatusReads | src/otlp_trace.rs:102-105 | a status decodes to itself; only the empty message with code Unset vanishes |
| OtlpTrace.SpanReads | src/otlp_trace.rs:111-132 | every span decodes to itself up to vanished attributes and status |
| OtlpTrace.TraceRoundTrip | src/otlp_trace.rs:140-168 | a trace request decodes to its input up to the stated normal form |
| OtlpTrace.EncodeExportTraceRequest | src/otlp_trace.rs:140-168 | produces the specified bytes, which decode to the request |
| OtlpLog.EncodeLogRecord | src/otlp_log.rs:36-53 | appends the record's fields in the order of the code |
| OtlpLog.LogReads | src/otlp_log.rs:36-53 | every log record decodes to itself; an empty string body is absent |
| OtlpLog.LogsRoundTrip | src/otlp_log.rs:61-89 | a logs request decodes to its input up to the stated normal form |
| OtlpLog.EncodeExportLogsRequest | src/otlp_log.rs:61-89 | produces the specified bytes, which decode to the request |
| OtlpMetrics.EncodeAttrKeyValue | src/otlp_metrics.rs:7-12 | appends a string attribute |
| OtlpMetrics.EncodeExemplar | src/otlp_metrics.rs:18-30 | appends the exemplar, its value as double or signed integer |
| OtlpMetrics.EncodeCounterDataPoint | src/otlp_metrics.rs:36-58 | appends a counter point in the order of the code |
| OtlpMetrics.EncodeGaugeDataPoint | src/otlp_metrics.rs:64-86 | appends a gauge point in the order of the code |
| OtlpMetrics.EncodeHistogramDataPoint | src/otlp_metrics.rs:121-154 | appends a histogram point in the order of the code |
| OtlpMetrics.EncodeSum | src/otlp_metrics.rs:92-102 | appends the points, cumulative temporality and the monotonic mark |
| OtlpMetrics.EncodeGaugeMsg | src/otlp_metrics.rs:108-114 | appends the points |
| OtlpMetrics.EncodeHistogramMsg | src/otlp_metrics.rs:160-174 | appends the points and cumulative temporality |
| OtlpMetrics.EncodeMetric | src/otlp_metrics.rs:180-220 | appends name, description and the data of the right kind |
| OtlpMetrics.ExemplarReads | src/otlp_metrics.rs:18-30 | an exemplar decodes to itself, negative integers included |
| OtlpMetrics.CounterPointReads | src/otlp_metrics.rs:36-58 | a counter point decodes to itself; the value is always present and keeps its sign |
| OtlpMetrics.GaugePointReads | src/otlp_metrics.rs:64-86 | a gauge point decodes to itself, the double bit for bit |
| OtlpMetrics.HistogramPointReads | src/otlp_metrics.rs:121-154 | a histogram point decodes to itself with buckets, bounds and extremes |
| OtlpMetrics.MetricReads | src/otlp_metrics.rs:180-220 | a metric decodes to itself; only a nameless gauge without points vanishes |
| OtlpMetrics.MetricsRoundTrip | src/otlp_metrics.rs:228-258 | a metrics request decodes to its input up to the stated normal form |
| OtlpMetrics.EncodeExportMetricsRequest | src/otlp_metrics.rs:228-258 | produces the specified bytes, which decode to the request |
| Exporter.StepKeepsInv | src/exporter.rs:170-357 | every step of producers, loop and tasks keeps the invariant: ordered partition of the received messages, bounded batches and payloads, permits, accounting, control |
| Exporter.RunKeepsInv | src/exporter.rs:170-357 | the invariant holds in every reachable state, for any capacity, batch size, permits and URLs |
| ExporterProperties.BoundsHold | src/exporter.rs:185-357 | at every reachable state channel, batches, payloads and posting tasks stay within capacity, batch size (zero acting as one) and permits |
| ExporterProperties.EveryItemHasOneFate | src/exporter.rs:353-399 | each message in a spawned payload is unfinished, delivered, given up, or lost to a panic, and only one of these |
| ExporterProperties.Conservation | src/exporter.rs:106-148 | at every reachable state the sends of a signal are exactly the dropped, queued or stranded, batched, unfinished, delivered, given up, panicked and discarded messages |
| ExporterProperties.PayloadsPartition | src/exporter.rs:326-357 | the payloads in spawn order cut the received messages into consecutive runs, no gap, duplicate or reordering; each joins one to a batch of messages, batches stay below the limit |
| ExporterProperties.ArrivalFillsBatch | src/exporter.rs:200-235 | a payload spawned on arrival joins exactly a full batch that ends with the arrived message |
| ExporterProperties.FlushBarrier | src/exporter.rs:236-261 | when a Flush is answered, batches and task set are empty, all data before it is settled and none behind it was taken |
| ExporterProperties.RepliesAreBarriers | src/exporter.rs:236-261 | in every run every answered Flush had, and keeps, everything before it settled |
| ExporterProperties.ReceivedFlushIsAnswered | src/exporter.rs:236-261 | a Flush has been received exactly if it has been answered or its tasks are being awaited |
| ExporterProperties.FlushSettlesIff | src/exporter.rs:150-156 | for every accepted Flush and every way its call returns: it was answered exactly if it was accepted ahead of the first Shutdown, and all data ahead of it is settled exactly if none of that was accepted behind the first Shutdown |
| ExporterProperties.FlushMayReturnUnsettled | src/exporter.rs:151-156 | a run of five steps in which a flush behind a Shutdown returns unanswered, with data ahead of it neither posted nor dropped |
| ExporterProperties.FlushReturnsIff | src/exporter.rs:150-399 | an accepted flush can return exactly if there is a permit to give, or no data ahead of it and of the first Shutdown has a URL |
| ExporterProperties.ExitIsClean | src/exporter.rs:262-286 | the loop leaves with nothing in hand at the first Shutdown accepted; data ahead of it is settled, data behind it is neither posted nor dropped; after the last sender went nothing is stranded |
| ExporterProperties.ShutdownSettlesIff | src/exporter.rs:158-161 | after a shutdown all accepted data is settled if and only if no data was accepted behind the first Shutdown |
| ExporterProperties.SettledUpToIff | src/exporter.rs:262-286 | after a shutdown the data ahead of any later position is settled, by whatever tasks, if and only if none of it was accepted behind the first Shutdown |
| ExporterProperties.ShutdownMayStrand | src/exporter.rs:262-286 | a run of four steps that leaves a message stranded, with nothing posted and nothing counted as dropped |
| ExporterProperties.AfterExit | src/exporter.rs:106-148 | after the exit every send counts as dropped and nothing else changes |
| ExporterProperties.TaskEventDecreases | src/exporter.rs:353-399 | each task step lowers the measure, and only attempts use up attempts |
| ExporterProperties.DrainNeverSticks | src/exporter.rs:259-284 | with a permit, a drain that is not over has an enabled task step |
| ExporterProperties.DrainCompletes | src/exporter.rs:259-284 | with a permit some bounded run of task steps ends the drain, with the reply to its Flush or the exit it was for |
| ExporterProperties.DrainIsBounded | src/exporter.rs:259-284 | under any interleaving and failures a drain takes no more task steps and attempts than were left |
| ExporterProperties.DrainMakesFewAttempts | src/exporter.rs:164-399 | under any interleaving and failures, draining T unfinished tasks makes at most 3T POST attempts |
| ExporterProperties.DrainEndsIff | src/exporter.rs:185-285 | a drain that has begun can end exactly if there is a permit to give or nothing to drain |
| ExporterProperties.DrainMayHang | src/exporter.rs:185-285 | without permits a Flush behind one message is never answered, whatever happens next |
| ExporterProperties.AcceptedIsSelected | src/exporter.rs:106-148 | the channel holds, in order, exactly the data sent while the loop was there and fewer messages waited than its capacity; all else is counted as dropped |
| ExporterHistories.TaskHistory | src/exporter.rs:353-399 | in every reachable state a task's phase is what the events of the run make of it: waiting before its start, posting after as many failures as it counts, delivered by one success after at most two failures, given up after exactly three, lost by a panic |
| ExporterHistories.OutcomeIff | src/exporter.rs:164-399 | in every run a task is given up if and only if three of its attempts failed, delivered if and only if one succeeded, and makes at most three |
| ExporterHistories.PostingSteps | src/exporter.rs:364-399 | a posting task may get any answer or panic; success delivers, the third failure gives up, an earlier one leaves it posting |
| ExporterHistories.ThirdAttemptDelivers | src/exporter.rs:364-399 | the run of two failures and a success ends delivered |
| ExporterHistories.SendDropsIff | src/exporter.rs:106-148 | in every reachable state a send is dropped and counted if and only if the loop is gone or as many messages wait as the capacity, and appended otherwise |
| ExporterHistories.ControlEntersIff | src/exporter.rs:151-161 | a Flush or Shutdown can enter if and only if the loop is there and fewer messages wait than the capacity |
| ExporterHistories.SendsFillTheChannel | src/exporter.rs:61-148 | without a receive exactly the first sends up to the capacity are accepted, in order, and exactly the others dropped |
| ExporterHistories.AcquireIff | src/exporter.rs:185-355 | a waiting task can start if and only if fewer tasks are posting than there are permits, and never more post |
| ExporterHistories.TickHandsOver | src/exporter.rs:289-317 | a tick may come whenever the loop selects; after it no batch is left, everything received is spawned or discarded, and no finished task is unreaped |
| ExporterHistories.ReceiveReaps | src/exporter.rs:195-318 | a queued message can be received whenever the loop selects, and after a data message no finished task is unreaped |
| ExporterHistories.LoopMayStep | src/exporter.rs:195-318 | nothing but its own state holds the loop up: message, tick and end of the channel while selecting, any finished task and the end of the wait while draining; the last sender may go at any time |
| ExporterHistories.LoopLeavesIff | src/exporter.rs:262-286 | from any state loop and tasks can come to the exit by themselves if and only if a Shutdown was accepted or no sender is left, and there is a permit or nothing to post ahead of the first Shutdown |
| ExporterLoop.PostWithRetry | src/exporter.rs:164-399 | stops at the first success, gives up after exactly three failures, and agrees with the task's attempts |
| ExporterLoop.ExporterTask.Send | src/exporter.rs:106-148 | puts the message into the channel if the loop is there and the channel below its capacity, and otherwise leaves it alone and bumps the wrapping drop counter |
| ExporterLoop.ExporterTask.SendControl | src/exporter.rs:151-161 | a control message enters when there is room; on a closed channel the call gives up and changes nothing |
| ExporterLoop.ExporterTask.FlushOne | src/exporter.rs:326-357 | drains a batch into one payload and spawns its task, or discards it without URL, or does nothing if empty |
| ExporterLoop.ExporterTask.JoinItems | src/exporter.rs:344-349 | the payload is the concatenation of the batch |
| ExporterLoop.ExporterTask.PushData | src/exporter.rs:200-235 | pushes to the batch of the signal and flushes it at the batch size |
| ExporterLoop.ExporterTask.Receive | src/exporter.rs:198-288 | the message arm is the receive step of the state machine |
| ExporterLoop.ExporterTask.ReceiveNone | src/exporter.rs:262-286 | the arm for a closed, empty channel is the disconnect step |
| ExporterLoop.ExporterTask.Tick | src/exporter.rs:289-317 | the tick flushes all three batches and reaps |
| ExporterLoop.ExporterTask.ReapFinished | src/exporter.rs:314-317 | exactly the finished tasks leave the join set |
| ExporterLoop.ExporterTask.FinishDrain | src/exporter.rs:258-286 | an empty join set leads to the reply or to the exit |
| ExporterLoop.ExporterTask.Acquire | src/exporter.rs:353-355 | a waiting task takes one of the permits left |
| ExporterLoop.ExporterTask.Attempt | src/exporter.rs:365-398 | one attempt moves the task on and a task that ends returns its permit |
| ExporterLoop.ExporterTask.Perform | src/exporter.rs:195-318 | whatever happens, the object stays at the end of a run of the state machine |
| EndToEnd.PipelineDelivers | src/exporter.rs:326-357 | in every reachable state the posted payloads of a signal decode to the entries of its received messages, in order, up to the current batch |
| EndToEnd.TaskDecodes | src/exporter.rs:344-356 | the payload of each task decodes by itself to exactly the entries of its own messages, at their place in the spawn order |
| EndToEnd.DeliveredDecode | src/exporter.rs:344-373 | the payloads delivered decode to exactly the entries of the messages delivered, in spawn order |
| EndToEnd.SentEntriesArrive | src/exporter.rs:106-373 | whatever is dropped, the entries of the messages that found room arrive as far as spawned: all payloads decode to them in order, the delivered ones to those delivered, and each by itself to its own |
| EndToEnd.TracesEndToEnd | src/otlp_trace.rs:140-168 | if the messages are encoded trace requests, the payloads decode to exactly these requests |
| EndToEnd.LogsEndToEnd | src/otlp_log.rs:61-89 | the same for logs |
| EndToEnd.MetricsEndToEnd | src/otlp_metrics.rs:228-258 | the same for metrics |
| Attributes.HashBytes | src/metrics.rs:326-336 | the byte loop computes FNV-1a, whose rounds and constants `HashCollisions` pins down |
| Attributes.AttrsHashUnordered | src/metrics.rs:319-340 | the loop computes the hash of the list, which `KeyOfPair` and `KeyIsSum` describe |
| Attributes.HashIgnoresOrder | src/metrics.rs:317-340 | all permutations of an attribute list of any length have one hash |
| Attributes.StreamIsUnambiguous | src/metrics.rs:325-336 | with no separator byte in the keys, equal byte streams mean equal pairs |
| Attributes.OwnedIsCanonical | src/metrics.rs:343-350 | the owned list is sorted, holds the same pairs, and two lists own alike exactly if they are permutations |
| Attributes.PairLeIff | src/metrics.rs:343-350 | the order of the owned list compares keys, then values, each by the first byte that differs, a prefix coming first |
| Attributes.KeyIgnoresOrder | src/metrics.rs:421-425 | the key of a data point does not depend on the order of attributes |
| HashCollisions.XorBits | src/metrics.rs:327 | exclusive or, bit by bit |
| HashCollisions.PublishedValues | src/metrics.rs:320-329 | offset basis and prime are those of FNV-1a: the byte 0x61 hashes to its published value |
| HashCollisions.RoundInjective | src/metrics.rs:326-336 | a round is injective in the state for every byte and in the byte for every state: xor is, and the prime is invertible modulo 2^64 |
| HashCollisions.KeyOfPair | src/metrics.rs:319-340 | the key of one pair is FNV-1a of its key, 0xff and its value; that of no pair is zero |
| HashCollisions.KeyIsSum | src/metrics.rs:324-339 | the key of a list is the sum of those of its parts modulo 2^64 |
| HashCollisions.OneByteChangesKey | src/metrics.rs:319-340 | two lists of any length that differ in exactly one byte of one pair have different keys |
| HashCollisions.TwoUpdates | src/metrics.rs:419-448 | two updates leave two points, each with its own attributes and value, if their keys differ, and one with the combined value if not |
| HashCollisions.OneByteMakesTwoPoints | src/metrics.rs:419-448 | two adds whose attributes differ in one byte are counted in two points, each with its own value |
| HashCollisions.AnyOrderMakesOnePoint | src/metrics.rs:419-448 | two adds with the same attributes in any order share one point, which holds the sum |
| Aggregation.AggregationIsFold | src/metrics.rs:426-447 | the keys of the map are exactly the first distinct keys up to the limit, in order of first use, and each point is built from all updates ever made with its key |
| Aggregation.AdmittedAreFirst | src/metrics.rs:426-447 | the admitted keys are the first distinct attribute keys used, at most as many as the limit |
| Aggregation.IndexRefinesMap | src/metrics.rs:319-350 | if two ways to name attribute lists tell the same lists apart, their maps agree point by point |
| Aggregation.HashIndexRefinesMap | src/metrics.rs:421-447 | without hash collision the hash-keyed map agrees with a map keyed by attribute sets |
| Aggregation.IndexAgreesIff | src/metrics.rs:421-447 | below the limit the two maps agree if and only if no two attribute sets collide |
| Instruments.CollectSees | src/metrics.rs:244-314 | under any interleaving a snapshot is the fold of all updates so far, each exemplar being the last captured for the key since the previous collection |
| Instruments.WindowsAreDisjoint | src/metrics.rs:254-257 | the updates two collections draw exemplars from are stretches of the history that do not overlap |
| Instruments.SnapshotShows | src/metrics.rs:254-257 | the exemplar of a snapshot's point is that of the last update of its key with an exemplar since the previous collection |
| Instruments.ExemplarShownOnce | src/metrics.rs:242-257 | the exemplar of an update is in at most one snapshot |
| Instruments.CounterValue | src/metrics.rs:444 | a counter value is the wrapped sum of its adds, and the sum itself exactly below 2^63 |
| Instruments.CounterIsFold | src/metrics.rs:419-448 | keys are the first distinct ones, each value is the wrapped sum of its adds and the sum itself exactly if that is below 2^63, added plus refused amounts equal the total |
| Instruments.CounterNeverDecreases | src/metrics.rs:244-264 | between snapshots a counter point neither disappears, decreases nor changes attributes, if the adds of its own key stay below 2^63 |
| Instruments.PointAfter | src/metrics.rs:249-257 | a snapshot's point has the sorted attributes of the key's first use, the value folded from all its updates, and the last exemplar since the previous collection |
| Instruments.ValueNeverFallsIff | src/metrics.rs:444 | over the adds of one key the value never falls if and only if they sum up to less than 2^63 |
| Instruments.CounterMonotonicIff | src/metrics.rs:411-448 | what successive snapshots show of a key never decreases, from zero on, if and only if its adds sum up to less than 2^63 |
| Instruments.CounterMayFall | src/metrics.rs:444 | one add of 2^63 shows as the least signed value |
| Instruments.GaugeIsLast | src/metrics.rs:469-498 | exactly the first distinct keys up to the limit have a point, and each holds the value set last with it |
| Instruments.Counter.Add | src/metrics.rs:419-448 | one aggregation step under the lock, refused and warned about at the limit |
| Instruments.Counter.TakeSnapshot | src/metrics.rs:249-263 | returns the fold so far, or nothing when unused, and takes the exemplars out |
| Instruments.Gauge.Set | src/metrics.rs:469-498 | one aggregation step under the lock, refused and warned about at the limit |
| Instruments.Gauge.TakeSnapshot | src/metrics.rs:268-282 | returns the fold so far, or nothing when unused, and takes the exemplars out |
| Histograms.BoundariesIncrease | src/metrics.rs:223-225 | creation makes the boundaries strictly increasing and keeps their set of values |
| Histograms.BoundariesAreTheSet | src/metrics.rs:223-225 | two boundary lists give the same histogram buckets exactly if they are the same set |
| Histograms.BucketIsUnique | src/metrics.rs:532 | the index found is the one bucket closed below and open above that holds the value |
| Histograms.UpperInclusiveIff | src/metrics.rs:532 | the bucket found is the upper-inclusive one if and only if the value is no boundary |
| Histograms.BoundaryGoesUp | src/metrics.rs:532 | an observation equal to boundary k is counted in bucket k + 1, not in bucket k |
| Histograms.StateSummarises | src/metrics.rs:553-575 | bucket counts are exact, add up to the count, min and max are the true extremes, the sum is added from the left |
| Histograms.CountsAreUpperIff | src/metrics.rs:532-567 | the bucket counts are those of the upper-inclusive convention if and only if no observation equals a boundary |
| Histograms.BucketIsRank | src/metrics.rs:223-532 | in plain numbers: the bucket of a finite value is the number of different boundaries given at or below it |
| Histograms.FiniteObservations | src/metrics.rs:530-575 | in plain numbers: bucket i counts the observations with i of the given boundaries at or below them, and the extremes are the least and greatest observation |
| Histograms.HistogramIsFold | src/metrics.rs:530-579 | each of the first distinct keys summarises all observations ever made with it |
| Histograms.Histogram.constructor | src/metrics.rs:223-238 | a new histogram is empty and has sorted, deduplicated boundaries |
| Histograms.Histogram.Record | src/metrics.rs:567-575 | the in-place update of one state, bucket index in range |
| Histograms.Histogram.Observe | src/metrics.rs:530-579 | one aggregation step under the lock, refused and warned about at the limit |
| Histograms.Histogram.TakeSnapshot | src/metrics.rs:287-310 | returns the fold so far, or nothing when unused, and takes the exemplars out |
| Registry.TableDescribes | src/metrics.rs:145-157 | a table binds exactly the names asked for, each to an object made by the first request |
| Registry.HandlesIdentifyNames | src/metrics.rs:131-158 | two calls return one object exactly if they ask for one name |
| Registry.RunsAreAtomic | src/metrics.rs:131-158 | with any number of threads between lookup and insert, every run behaves like atomic calls in the order of their returns |
| Registry.HandlesShareOneObject | src/metrics.rs:208-240 | in every run all handles of a name share one object, made with the description, boundaries and limit of the first call to return |
| Registry.RunsNeverRebind | src/metrics.rs:131-193 | along every run a bound name keeps its object and objects never change |
| Registry.CallsReturn | src/metrics.rs:131-158 | a thread without a call can make one for any name in every state, and by itself it returns after one or two steps |
| Registry.MetricsRegistry.Lookup | src/metrics.rs:137-143 | the read-locked half returns the handle of a known name and changes nothing else |
| Registry.MetricsRegistry.GetOrInsert | src/metrics.rs:144-157 | the write-locked half looks again and inserts only on a second miss |
| Sampling.ThresholdIff | src/otlp_layer.rs:156-166 | the ratio is the threshold: an id is kept at exactly the rates above its ratio, at rates of one and more in any case, and never at zero and below |
| Sampling.KeptBelow | src/otlp_layer.rs:163-165 | for the exact ratio and a rate between zero and one, the ids kept are exactly those whose hash is below the rate's share of 2^64 - 1 |
| Sampling.KeptShareIsRate | src/otlp_layer.rs:153-166 | for the exact ratio, the number of hashes kept differs from the rate times 2^64 by less than one |
| Sampling.SameDecisionIff | src/otlp_layer.rs:156-166 | two trace ids are decided alike at every rate exactly if the ratios of their first eight bytes are equal, so no other byte matters |
| SpanLayer.RunsMeetReference | src/otlp_layer.rs:232-377 | in every run each span's flag is the decision of its root, and exactly the expected messages are sent, whose records are written out field by field from the events: closed spans and inner events of sampled roots, and events outside of spans always |
| SpanLayer.ClosedSpanIs | src/otlp_layer.rs:324-377 | in every run a close sends one record if traces are exported and the root is sampled, with ids, name and start of the creation, the parent's id or zero, the end of the close, created and recorded attributes in order, kind Internal and no status; else nothing |
| SpanLayer.LogRecordIs | src/otlp_layer.rs:140-322 | in every run an event sends one record if logs are exported and it is outside of spans or in a sampled trace, with its time, the number 1, 5, 9, 13 or 17 and the name of its level, its message or the empty string, its attributes and the span's ids or zeros; else nothing |
| SpanLayer.TracesAreWhole | src/otlp_layer.rs:249-253 | spans below one root are all sampled or none |
| SpanLayer.OwnIdDecidesIff | src/otlp_layer.rs:249-253 | a span is decided by its own trace id at every rate if and only if that has the ratio of its root's |
| SpanLayer.OwnIdMayDisagree | src/otlp_layer.rs:249-253 | for any ratio and any id with a ratio strictly between zero and one, a run that keeps a span which that id alone would drop |
| SpanLayer.HigherRateSendsMore | src/otlp_layer.rs:156-166 | on the same callbacks a lower rate sends a subsequence of what a higher rate sends |
| OtlpLayer.OtlpLayer.OnNewSpan | src/otlp_layer.rs:232-267 | stores the span with its parent's id and decision, or with its own decision, as the run of callbacks it joins |
| OtlpLayer.OtlpLayer.OnRecord | src/otlp_layer.rs:269-277 | appends the recorded fields and changes nothing else |
| OtlpLayer.OtlpLayer.OnEvent | src/otlp_layer.rs:279-322 | sends the encoded log record unless logs are off or the current span is sampled out |
| OtlpLayer.OtlpLayer.OnClose | src/otlp_layer.rs:324-377 | sends the encoded record of `ClosedSpanIs` unless traces are off, the span is unknown or sampled out |
| OtlpLayer.ClosedSpansArrive | src/otlp_layer.rs:324-377 | in any state of the exporter, closed spans whose root is sampled arrive, in order of closing: those that found room in the channel, as far as spawned, the delivered payloads holding exactly those delivered; the others are dropped and counted |
| OtlpLayer.LogEventsArrive | src/otlp_layer.rs:279-322 | the same for events outside of spans and events inside sampled traces |
| MetricsExport.CounterSays | src/metrics.rs:248-264 | a decoded counter lists, for each key, the wrapped sum of all its adds (the sum itself exactly below 2^63), its attributes, and the exemplar of the window |
| MetricsExport.GaugeSays | src/metrics.rs:267-283 | a decoded gauge lists, for each key, the value set last bit for bit, its attributes, and the exemplar of the window |
| MetricsExport.HistogramSays | src/metrics.rs:286-310 | a decoded histogram lists, for each key, the words and bits of the state that summarises all its observations, with the boundaries |
| MetricsExport.MetricsSay | src/metrics.rs:244-314 | the metrics of a round are, kind by kind and in order, those of the instruments with a recorded update, and none is lost in encoding |
| MetricsExport.TakeCounters | src/metrics.rs:247-264 | the loop over counters takes every snapshot and passes over the unused ones |
| MetricsExport.TakeGauges | src/metrics.rs:266-283 | the loop over gauges takes every snapshot and passes over the unused ones |
| MetricsExport.TakeHistograms | src/metrics.rs:285-311 | the loop over histograms takes every snapshot and passes over the unused ones |
| MetricsExport.ExportRound | src/lib.rs:249-273 | one round of the loop makes nothing if and only if no instrument was used, else one request that decodes to what all instruments hold |
| MetricsExport.RoundsArrive | src/lib.rs:249-273 | the requests of the rounds that found room arrive at the collector, in order, and the entry of each says its round |

## Left out

- The closure of `encode_message_field_in_place`: its effect is whatever runs between `OpenMessage` and `CloseMessage`; that it appends is a precondition of `CloseMessage`, which every encoder discharges for its own body, and `EncodeMessageFieldInPlace` takes the body as a tree.
- ProtoWriter.ByteBuffer.CloseMessage: asks for a body below 2^35 bytes, the exact limit of the five reserved length bytes by `VarintLimits`; the encoders carry the same condition and no other. Lengths are below 2^64, as a `usize` is.
- HTTP, TLS, status codes, time-outs, retry delays and stderr: a POST attempt succeeds or fails, either at any time.
- Timers: a tick may happen whenever the loop selects, which covers every interval and the biased select. Nothing is claimed about how soon a tick comes.
- Tokio and memory ordering: channel, semaphore, join set and atomics take their documented effect in atomic steps. A panicking task counts as one more finished task.
- One drop counter serves all signals and all exporters of a process; the state machine also keeps its parts by signal, and only one exporter is modelled.
- ExporterLoop.ExporterTask.SendControl: is the sending half of `flush` and `shutdown`. The wait for room is its precondition, and the wait for the reply is not part of its contract; when the call returns, and what is settled then, is `FlushReturnsIff` and `FlushSettlesIff`.
- ExporterProperties.DrainCompletes: says that a drain can be completed and `DrainIsBounded` that it cannot go on; that tokio schedules an enabled task is not part of the model.
- Mutex poisoning and lock order: an instrument's lock makes each update and each collection one step.
- Arithmetic on doubles: a histogram's sum is a left fold of an arbitrary addition, NaN is excluded, zero has one sign, and the sampling ratio is an arbitrary function of the hash, within the closed unit interval where that matters; the share kept (`KeptShareIsRate`) is that of the exact quotient.
- Histograms.Histogram.Record: bucket and observation counts are unbounded; `MetricsExport` encodes them modulo 2^64, as the program's words hold them in release builds.
- Instruments.CounterNeverDecreases: is one direction; both are `CounterMonotonicIff`.
- Instruments.Counter.Add: models the wrap-around of release builds; a build with overflow checks panics instead.
- `sort`, `dedup`, `partition_point`, `copy_within`, `truncate` and hash maps are taken by their library contracts; the order in which a hash map lists points and instruments is not modelled, so a snapshot is a map and its order an input of the encoding.
- MetricsExport.ExportRound: the timer and the clock are left out, and the order in which the registry lists instruments and a hash map its keys is an input. The method runs without interference; recording by other threads between the locks of two instruments is covered by the rounds of `RoundsArrive`, where each instrument has a history of its own.
- Exemplars are inputs of an update; reading the current span's ids and the clock is left out.
- Registry.MetricsRegistry.GetOrInsert: shared inner objects are numbers in the order of creation, and one table stands for each of the three kinds; the sorting of boundaries before the insert is in `Histograms`.
- Field visitors, hex parsing of trace ids, generated span ids and clocks: their results are inputs of the callbacks.
- OtlpLayer.ClosedSpansArrive: takes the layer as the only caller of the exporter's trace sends.
- OtlpLayer.LogEventsArrive: takes the layer as the only caller of the exporter's log sends.
- OtlpLayer.OtlpLayer.OnClose: spans are known by their place in the order of creation, so reuse of registry ids and removal of closed spans are not modelled.
- HashCollisions.OneByteChangesKey: is about lists that differ in one byte; lists that differ in more may collide, as any 64-bit hash must, and `IndexAgreesIff` says what follows.
- ExporterHistories.LoopLeavesIff: says that the loop can leave by its own steps, not that tokio schedules them.
- Attributes.StreamIsUnambiguous: asks that the keys hold no byte 0xff, which is true of UTF-8; values may hold it.
- `src/tower`, `src/use_metrics.rs`, `src/trace_id.rs`, initialisation and the guard in `src/lib.rs`, benches, fuzz targets, tools and the TLA+ files.
