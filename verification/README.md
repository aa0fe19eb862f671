# OrbitOps: a verified model

OrbitOps encodes spacecraft telemetry on board, carries it over an emulated lossy link, receives it on the
ground, evaluates alarms on it, and afterwards inspects what the separate streams recorded. This project models
that path and proves what each part promises and what the parts promise one another.

* **Link emulator** (`SplitMix`, `Impairments`, `Schedule`, `Scheduler`, `LinkEvents`, `LinkRun`, `LinkOrder`,
  `LinkEvidence`, `LinkTrace`, `LinkRecord`, `LinkTiming`, `LinkRuntime`, `Decisions`). A seeded generator
  decides loss, duplication, corruption, delay and hold; a heap releases deliveries when they are due and enough
  later packets have come; a loop interleaves sending and receiving and then drains. `LinkRun` gives the loop as
  a fold over passes, `LinkRuntime` the objects and the loop itself, proved to make the passes that its
  surroundings determine and to compute that fold; `LinkOrder`, `LinkEvidence`, `LinkTrace`, `LinkRecord` and
  `LinkTiming` hold the theorems about whole runs, and `Decisions` says what the engine decides from the draws
  alone.
* **Wire codec** (`Bits`, `BitRegister`, `Crc`, `Codec`, `WireLayout`). The 35-byte packet in both languages,
  CRC-32 as the IEEE remainder, burst detection, and what it means for damaged packets.
* **Alarm engine and its log** (`Alarms`, `AlarmHistory`, `AlarmEvents`). Thresholds with hysteresis,
  lifecycles, the recorder and the loader of alarm events.
* **Receiver** (`TelemetryRecording`, `Receiver`, `ReceiverRecord`). Record first, then decode, evaluate and
  log.
* **Session inspector** (`Ordering`, `Correlation`, `SessionModels`, `SequenceInspection`, `LossAccounting`,
  `Inspection`, `SessionValidity`, `SessionNormalization`, `SessionFindings`, `SessionVerdicts`,
  `SessionRecovery`, `Reporting`, `ReportMeaning`). Sequence diagnostics, correlation, normalization, and
  reports with their own checker.
* **Across components** (`ReceiverInspection`, `LinkInspection`, `LinkLosses`). What the inspector says agrees
  with what the receiver alarmed on and with what the link dropped, doubled and corrupted.

`LogMeaning` says what both loaders of event logs accept. `Wrappers`, `Texts` and `Words` hold what all share:
option and result types, text checks, and the 32-bit counter.

Conventions. Times are integers in nanoseconds. Rates are exact fractions, since the program compares through
the exact ratio of a float. Temperatures and voltages are reals computed from the integer fields of a packet.
64-bit and 32-bit words are integers with the modulus written out. The clock of the link, the datagrams that
arrive and the stop request are functions of the pass number (`LinkRuntime.World`); the alarm recorder's clock
is a function of the number of readings. A nondecreasing link clock is a precondition of the theorems about
whole runs, because the event stream raises an error on any other; the alarm recorder clamps instead, and the
exact condition on its clock is proved.

Three results to know about:

* The link loader accepts a session identifier that contains a NUL character, but the session model does not
  (`SessionNormalization.NulSessionIsRefused`).
* No loader looks at the name of its file, but the session model refuses a blank one
  (`SessionNormalization.BlankNameIsRefused`). `SessionNormalization.NormalizationSucceeds` shows that these two
  are the only ways in which loaded evidence can fail to normalize.
* The on-board encoder does not check its mode byte. `Codec.Encode` shows that the ground station refuses
  exactly the packets that result from an undefined mode.

## Model

| member | source | states |
|---|---|---|
| `SplitMix.MixIsBijection` | ground_station/orbitops/link/decisions.py:26-31 | The output mix of the generator permutes the 64-bit words: `Unmix` undoes it and it undoes `Unmix`. |
| `SplitMix.SplitMix64.NextU64` | ground_station/orbitops/link/decisions.py:26-31 | A draw adds the golden gamma to the state modulo 2^64 and returns, bit by bit, what SplitMix64 makes of the new state. |
| `SplitMix.SplitMixedOnce` | ground_station/orbitops/link/decisions.py:26-31 | The statement bit by bit admits no other value than the mix. |
| `SplitMix.JumpAhead` | ground_station/orbitops/link/decisions.py:26-31 | `n` draws from seed `s` leave the generator that seed `s + n * gamma` would start with. |
| `SplitMix.DrawsCompose` | ground_station/orbitops/link/decisions.py:26-31 | Drawing `m` and then `n` times is drawing `m + n` times, from every state. |
| `SplitMix.FullPeriod` | ground_station/orbitops/link/decisions.py:26-31 | Among any 2^64 consecutive outputs, from any seed and any starting draw, every word occurs at exactly one position, which is given. |
| `Impairments.AcceptedCount` | ground_station/orbitops/link/decisions.py:34-43 | A rate in the unit interval accepts exactly floor(rate * 2^64) of the 2^64 samples. |
| `Impairments.BucketsAreFair` | ground_station/orbitops/link/decisions.py:46-51 | Scaling sends at least floor and at most ceiling of 2^64 / n samples to each of the n results, hence exactly 2^64 / n when n divides 2^64. |
| `Impairments.FlipIsLocalInvolution` | ground_station/orbitops/link/impairments.py:17-30 | Flipping a bit changes exactly the byte that holds it, keeps the length, and undoes itself. |
| `Impairments.FlipBit` | ground_station/orbitops/link/impairments.py:17-30 | In-place flip on a copy: refused exactly outside the payload, otherwise the payload with that bit inverted. |
| `Impairments.DelayAndHoldBounds` | ground_station/orbitops/link/impairments.py:67-75 | Delays stay within latency plus or minus jitter and differ by at most twice the jitter; holds stay within the window; for every sample. |
| `Impairments.ImpairmentEngine.DrawSamples` | ground_station/orbitops/link/impairments.py:57-64 | The six draws of packet n are draws 6n to 6n+5 of the seeded generator. |
| `Impairments.ImpairmentEngine.Process` | ground_station/orbitops/link/impairments.py:55-101 | The decision for packet n depends on the configuration, n and the payload only, never on earlier payloads. |
| `Decisions.OutcomeIsDecided` | ground_station/orbitops/link/impairments.py:55-101 | Every outcome, from the draws alone and without division: lost, doubled and corrupted by comparison of draws 0, 1 and 2 with the rates; delay, hold and damaged bit by the part of the range that draws 3, 4 and 5 fall into; the payload differs in that bit only, counted from the lowest of byte zero. |
| `Decisions.DecidedOnce` | ground_station/orbitops/link/impairments.py:55-101 | No other outcome meets that statement. |
| `Decisions.HitOutside` | ground_station/orbitops/link/decisions.py:34-40 | A rate of zero or less accepts no sample, a rate of one or more accepts every sample. |
| `Decisions.ScaleRefuses` | ground_station/orbitops/link/decisions.py:46-51 | Scaling is refused exactly for a bound that is not positive. |
| `Impairments.HitIsMonotone` | ground_station/orbitops/link/decisions.py:34-43 | A larger rate accepts every sample that a smaller one accepts. |
| `Impairments.MonotoneCoupling` | ground_station/orbitops/link/impairments.py:55-81 | With one seed a larger loss, duplicate or corrupt rate selects a superset of the packets, whatever the other settings and payloads. |
| `Schedule.ReadyHeldPartition` | ground_station/orbitops/link/scheduler.py:82-104 | What a gate releases and what it keeps are together exactly the pending deliveries. |
| `Schedule.ReadyHeldSorted` | ground_station/orbitops/link/scheduler.py:14-23 | Both parts of a sorted agenda are sorted by (due, packet, copy, release). |
| `Schedule.PopTwiceIsPopOnce` | ground_station/orbitops/link/scheduler.py:82-104 | Popping at t1 and then at t2 >= t1, with nothing enqueued or released between, yields the same sequence and remainder as popping once at t2. |
| `Schedule.SortedIsUnique` | ground_station/orbitops/link/scheduler.py:14-23 | When packet and copy identify deliveries, the key order admits one arrangement only. |
| `Schedule.BeforeIsTupleOrder` | ground_station/orbitops/link/scheduler.py:14-23 | The key order is the order of the tuples (due, packet, copy, release); payload and bit do not take part. |
| `Schedule.SelectionIsReady` | ground_station/orbitops/link/scheduler.py:82-104 | Any sorted, complete selection of what a gate opens is the batch that the specification releases. |
| `Schedule.DeadlineIsReadiness` | ground_station/orbitops/link/scheduler.py:106-114 | Something is ready at `now` exactly when the next deadline is at most `now`. |
| `Scheduler.DatagramHeap.Push` | ground_station/orbitops/link/scheduler.py:60-75 | Array-backed heap: the contents gain exactly the new delivery and heap order is kept. |
| `Scheduler.DatagramHeap.Pop` | ground_station/orbitops/link/scheduler.py:88-93 | Removes one least delivery in key order and keeps all the others. |
| `Scheduler.DatagramScheduler.Enqueue` | ground_station/orbitops/link/scheduler.py:48-75 | Refuses a negative time or an index that does not increase, changing nothing; otherwise pending grows by exactly the outcome's deliveries. |
| `Scheduler.DatagramScheduler.ReleaseHolds` | ground_station/orbitops/link/scheduler.py:77-80 | Ends all holds and changes neither the pending deliveries nor the highest index. |
| `Scheduler.DatagramScheduler.PopReady` | ground_station/orbitops/link/scheduler.py:82-104 | Returns, in key order, exactly the due and released deliveries and keeps every other one; refuses negative times only. |
| `Scheduler.DatagramScheduler.NextDeadlineNs` | ground_station/orbitops/link/scheduler.py:106-114 | The least due time among released deliveries, or none when there is no released one. |
| `LinkEvents.FieldTextIdentifies` | ground_station/orbitops/link/runtime.py:179-267 | An attribute name of the model stands for one text of the log and no two stand for the same. |
| `LinkEvents.StatisticsAppend` | ground_station/orbitops/link/statistics.py:93-101 | Counting incrementally, one event at a time, gives the plain counts per event type. |
| `LinkEvents.SummaryRoundTrip` | ground_station/orbitops/link/statistics.py:41-91 | A mapping reads back as counters exactly when it is the mapping written from those counters. |
| `LinkEvents.StatisticsFromEvents` | ground_station/orbitops/link/statistics.py:93-101 | The dictionary loop returns, for each counted type, the number of its events. |
| `LinkEvents.LoadLinkEvents` | ground_station/orbitops/link/events.py:306-362 | The loop over running variables accepts exactly the logs with well-shaped events, contiguous indices, one session and schema, nondecreasing times, one leading header (version 2) and a summary only at the end; otherwise it names what is wrong first with the first event that does not fit. |
| `LogMeaning.LinkLogMeans` | ground_station/orbitops/link/events.py:306-362 | The loader accepts a log exactly if its first record may open one and each other may follow the one before it: next index, same session and schema, no earlier time, nothing after a summary, no second header. |
| `LogMeaning.LinkPrefixAccepted` | ground_station/orbitops/link/events.py:306-313 | An accepted log can be cut short anywhere. |
| `LogMeaning.LinkRemovalRefused` | ground_station/orbitops/link/events.py:330-332 | Without any one of its events other than the last an accepted log is refused. |
| `LogMeaning.LinkOrderIsFixed` | ground_station/orbitops/link/events.py:330-332 | At most one arrangement of the same events is accepted. |
| `LogMeaning.RunSummaryMeans` | ground_station/orbitops/link/statistics.py:104-146 | The summary check passes, on any list of events, exactly if the last is the only summary, all share one schema, a header stands first under schema 2 and nowhere under schema 1, and the summary holds the counters of the events before it. |
| `LogMeaning.WrittenCounts` | ground_station/orbitops/link/statistics.py:41-53 | The counters written for a log name every counted type and give the number of its events. |
| `LinkEvents.AcceptedSummary` | ground_station/orbitops/link/statistics.py:132-146 | On an accepted log the summary check succeeds exactly when the last event is a summary holding the recomputed counters. |
| `LinkEvents.LinkEventStream.EmitRunMetadata` | ground_station/orbitops/link/statistics.py:220-233 | Succeeds exactly on an open, empty stream with a clock that has not moved back, and then writes the header event. |
| `LinkEvents.LinkEventStream.Emit` | ground_station/orbitops/link/statistics.py:235-256 | Succeeds exactly on an open stream with a header, for packet events and a clock that has not moved back; appends one stamped event; the log stays acceptable and the counters are those of the log. |
| `LinkEvents.LinkEventStream.EmitSummary` | ground_station/orbitops/link/statistics.py:258-269 | Writes the counters of the whole log as the last event and closes the stream. |
| `LinkRun.ExactlyOnce` | ground_station/orbitops/link/runtime.py:320-355 | At every loop head the deliveries produced so far are, as a multiset with payloads, those forwarded plus those pending, and the pending ones are in key order. |
| `LinkRun.ProducedItems` | ground_station/orbitops/link/impairments.py:83-101 | What has been produced is, for each packet and copy the engine decided on, one delivery, once. |
| `LinkRun.PendingIdentified` | ground_station/orbitops/link/runtime.py:320-355 | No delivery is invented, forwarded twice, or both forwarded and pending. |
| `LinkRun.LimitIsKept` | ground_station/orbitops/link/runtime.py:346-355 | Over every run no more packets are taken in than the packet limit, and holds are released exactly when as many as the limit have been. |
| `LinkOrder.RunKeepsOrder` | ground_station/orbitops/link/runtime.py:269-280 | Invariant of every run: each reversal of packets in the output is justified by a hold or by an earlier due time. |
| `LinkOrder.BoundedOvertaking` | ground_station/orbitops/link/scheduler.py:48-104 | In every run with a nondecreasing clock, if packet j leaves before an earlier packet i then j < i + hold_i (at most i + window), or j fell due earlier and the two were received less than twice the jitter apart. |
| `LinkOrder.ZeroJitterOvertaking` | ground_station/orbitops/link/impairments.py:67-75 | With zero jitter no packet is overtaken by one a full reorder window or more behind it. |
| `LinkOrder.FirstInFirstOut` | ground_station/orbitops/link/scheduler.py:82-104 | With zero jitter and a window of at most one, the output is in packet and copy order. |
| `LinkOrder.DuplicatesLeaveTogether` | ground_station/orbitops/link/scheduler.py:82-104 | In every run both copies of a duplicated packet leave in one batch, adjacent, copy zero first; or both are still pending. |
| `LinkOrder.ArrivalTimes` | ground_station/orbitops/link/runtime.py:340-342 | Reception times never decrease over a run and never exceed the last clock reading. |
| `LinkOrder.DueReleasedDrains` | ground_station/orbitops/link/runtime.py:320-336 | Once holds are released and every due time has passed, one send leaves nothing pending. |
| `LinkOrder.NoDeadlineMeansEmpty` | ground_station/orbitops/link/runtime.py:325-328 | While draining, the exit on a missing deadline is taken only when nothing is pending. |
| `LinkEvidence.ReorderingEvidence` | ground_station/orbitops/link/runtime.py:236-267 | Over any run a reorder event is logged exactly once for each packet with some delivery forwarded after a higher-numbered packet, for no other, and the counter is the size of that set. |
| `LinkEvidence.CountersAddUp` | ground_station/orbitops/link/runtime.py:179-267 | At every loop head: received, dropped, duplicated and corrupted are the engine's own counts, scheduled = received - dropped + duplicated, and scheduled - forwarded is what is pending. |
| `LinkEvidence.RunLogOpen` | ground_station/orbitops/link/statistics.py:185-218 | With a nondecreasing clock no emission of any run is refused, and the log is acceptable after each. |
| `LinkEvidence.FinishedLogVerifies` | ground_station/orbitops/link/runtime.py:356-363 | Every finished run leaves a log that the loader accepts and whose summary check returns the counters recomputed from the events. |
| `LinkTrace.LogTellsOutput` | ground_station/orbitops/link/runtime.py:236-280 | At every loop head the log's forwarding events are the datagrams sent so far, one for one and in order, each with its packet, copy, corrupted bit and size. |
| `LinkTiming.ItemIsDelivery` | ground_station/orbitops/link/scheduler.py:60-75 | Every queue entry is due at reception plus the delay decided for its delivery and is released by the packet at its own index plus the hold decided; payload, bit and copy are those of the delivery. |
| `LinkTiming.DelaysAndHoldsKept` | ground_station/orbitops/link/scheduler.py:82-104 | Over every run, each forwarding event of the log is for a delivery that the engine decided on, with its copy, bit and size, at a time when the delay decided had passed, and after more receptions in the log than its index and hold ask for or at the packet limit. |
| `LinkTiming.ReorderingsTold` | ground_station/orbitops/link/runtime.py:236-258 | Over every run, each reordering event names the highest packet sent so far, which is above its own, and the packet its own was held for. |
| `LinkTiming.LeavesWhenOpen` | ground_station/orbitops/link/runtime.py:269-280 | Over every run, a pass sends a pending delivery exactly when at its clock reading the delay decided has passed and the hold decided is over or the packet limit reached; otherwise the delivery stays pending. |
| `LinkRecord.LogTellsReception` | ground_station/orbitops/link/runtime.py:179-234 | Over every run the log tells of each packet received exactly its story, in order, with every attribute and the time: received, then dropped, or duplicated, corrupted, delayed where it is, and one scheduling event for each delivery; and nothing of any other packet. |
| `LinkRuntime.LinkRuntime.EmitForwarded` | ground_station/orbitops/link/runtime.py:236-267 | The reorder event (once per packet) and then the forwarding event, with the highest forwarded index kept up to date. |
| `LinkRuntime.LinkRuntime.SendReady` | ground_station/orbitops/link/runtime.py:269-280 | The objects after sending hold exactly the state that the run specification prescribes. |
| `LinkRuntime.LinkRuntime.EmitOutcome` | ground_station/orbitops/link/runtime.py:179-234 | The events of one received packet, in order: received, then dropped, or duplicated, corrupted, delayed and one scheduling event for each delivery. |
| `LinkRuntime.LinkRuntime.ReceiveTimeout` | ground_station/orbitops/link/runtime.py:282-287 | The timeout is zero exactly when something is ready, and nothing becomes ready before it has elapsed. |
| `LinkRuntime.LinkRuntime.DrainPass` | ground_station/orbitops/link/runtime.py:320-336 | A draining pass ends the run exactly when nothing is pending; otherwise its sleep ends no later than something becomes ready, and it does not sleep exactly when something is. |
| `LinkRuntime.LinkRuntime.ReceivePass` | ground_station/orbitops/link/runtime.py:320-353 | One pass of the loop is one step of the run specification; its receive timeout is never zero, and nothing becomes ready before it has elapsed. |
| `LinkRuntime.LinkRuntime.Run` | ground_station/orbitops/link/runtime.py:289-363 | The loop makes exactly the passes that clock, datagrams and stop requests determine, takes in the datagrams that come, up to the packet limit, and ends with the state and the log that folding the passes gives, closed by a summary; it stops only on a request, and otherwise when it has taken in as many packets as the limit says, with nothing pending; it terminates by (receiving or draining, passes left). |
| `LinkRuntime.TakesInbox` | ground_station/orbitops/link/runtime.py:338-353 | After any of its passes a run has taken in the datagrams that came in them, unchanged, in order, each with the second clock reading of its pass, up to the packet limit. |
| `LinkRuntime.RunIsDetermined` | ground_station/orbitops/link/runtime.py:317-363 | Clock, datagrams and stop requests determine the passes of a run and whether it is stopped or drained, and so its output, log and counters. |
| `LinkRuntime.DrainProgress` | ground_station/orbitops/link/runtime.py:320-336 | A draining pass that leaves something pending happens before every due time has passed, which bounds the number of such passes. |
| `BitRegister.BurstDetected` | docs/protocol.md:23 | Abstract shift register: messages that differ only inside a window spelled by one word reach the same register exactly when they are equal. |
| `BitRegister.RegisterIsRemainder` | docs/protocol.md:23 | Abstract division: a register preset to ones holds the remainder of the zero-extended message whose first bits are complemented. |
| `Crc.Crc32` | onboard/include/orbitops/telemetry.hpp:53-63 | The nested bit loops compute the register specification for all byte strings. |
| `Crc.BurstChangesCrc` | onboard/include/orbitops/telemetry.hpp:53-63 | Byte strings of equal length that differ only inside 32 consecutive bits have equal CRCs exactly when they are equal. |
| `Crc.ByteWindowIsBurst` | onboard/include/orbitops/telemetry.hpp:53-63 | Damage inside four consecutive bytes is such a 32-bit window. |
| `Crc.Crc32IsIeeeRemainder` | docs/protocol.md:23 | The bit-reflected result is the CRC of IEEE Std 802.3 clause 3.2.9: the complemented remainder of the message, first 32 bits complemented, divided by the generator. |
| `Codec.FieldsOfLayout` | ground_station/orbitops/protocol.py:104-139 | Unpacking a packed record gives back every list of values that fits its widths. |
| `Codec.LayoutOfFields` | ground_station/orbitops/protocol.py:85-101 | Packing the unpacked fields gives back every byte string of the right length, and the fields fit. |
| `Codec.DecodeEncode` | ground_station/orbitops/protocol.py:65-139 | Decoding inverts encoding for every packet in range, negative fields included. |
| `Codec.EncodeDecode` | ground_station/orbitops/protocol.py:104-139 | Bytes are accepted only if encoding the decoded packet gives exactly those bytes. |
| `Codec.CodecIsInverse` | ground_station/orbitops/protocol.py:65-139 | Encoding p gives data exactly when decoding data gives p. |
| `Codec.DamagedBodyRejected` | ground_station/orbitops/protocol.py:104-139 | An encoded packet changed only inside any 32 consecutive bits of bytes 0-30 never decodes. |
| `Codec.DamagedCrcRejected` | ground_station/orbitops/protocol.py:104-139 | An encoded packet changed only in its stored CRC never decodes. |
| `Codec.FlippedBitRejected` | ground_station/orbitops/link/impairments.py:17-30 | An encoded packet with any one bit flipped never decodes. |
| `Codec.DeliveryDecodesIffUncorrupted` | ground_station/orbitops/link/impairments.py:55-101 | Every delivery that the link makes of an encoded packet decodes exactly when its corrupted bit is absent, and then to the original telemetry. |
| `Codec.Encoder.AppendShifted` | onboard/include/orbitops/telemetry.hpp:41-51 | The descending shift loop appends the value as one big-endian field and keeps the fields before it. |
| `WireLayout.DecodeReads` | ground_station/orbitops/protocol.py:104-139 | Decoding reads 35 bytes at the offsets of the protocol, big-endian, signed fields in two's complement, and finds fault in the order length, magic, version, flags, CRC, mode. |
| `WireLayout.EncodeWrites` | ground_station/orbitops/protocol.py:65-101 | Encoding gives the 35 bytes that so read back as the packet, and refuses exactly the packets with a field out of range or else an undefined mode. |
| `Codec.Encode` | onboard/include/orbitops/telemetry.hpp:65-86 | The on-board encoder gives 35 bytes: those of the ground station for every telemetry value with a defined mode, and bytes refused for their mode otherwise. |
| `Alarms.TextsIdentify` | ground_station/orbitops/alarms.py:85-88 | No two alarm codes of the model stand for the same text, and no two identities for the same name. |
| `Alarms.AlarmEngine.EvaluateSequence` | ground_station/orbitops/alarms.py:157-175 | A gap transition exactly when detection is on and the sequence is not the successor modulo 2^32; the sequence is remembered in any case. |
| `Alarms.AlarmEngine.EvaluateTemperature` | ground_station/orbitops/alarms.py:177-211 | The severity and the transition that the three-level specification prescribes. |
| `Alarms.AlarmEngine.Evaluate` | ground_station/orbitops/alarms.py:135-155 | All four checks in their order: new state and transitions as specified for the packet. |
| `Alarms.AlarmEngine.Active` | ground_station/orbitops/alarms.py:115-125 | The active identities in presentation order. |
| `Alarms.LatchClosedForm` | ground_station/orbitops/alarms.py:213-237 | A latch is set exactly when some past sample reached its set level and none since fell below its clear level. |
| `Alarms.LevelStep` | ground_station/orbitops/alarms.py:213-237 | Under a valid policy one step of the three-level machine is one step of two independent latches, critical implying warning. |
| `Alarms.HysteresisDecomposition` | ground_station/orbitops/alarms.py:213-237 | After any packet history the temperature severity is two independent threshold latches and the battery alarm is a third. |
| `Alarms.AlarmsInClosedForm` | ground_station/orbitops/alarms.py:272-280 | Severity and battery alarm after any history, each by the existence of a sample that reached the level with none below the clear level since. |
| `Alarms.ChatterBound` | ground_station/orbitops/alarms.py:272-299 | Over any run (changes of a latch - 1) times its hysteresis is at most the variation of the signal inside the latch's band, and so at most its total variation. |
| `Alarms.DisjointLatchesBound` | ground_station/orbitops/alarms.py:213-237 | Two latches over one signal whose bands do not overlap share its total variation: (changes - 1) times hysteresis, added over both, is at most that variation. |
| `Alarms.TransitionsAreFlips` | ground_station/orbitops/alarms.py:177-211 | Battery transitions are the changes of the battery latch; temperature transitions are at most those of the two temperature latches. |
| `Alarms.TransitionsAreBounded` | ground_station/orbitops/alarms.py:272-299 | (battery transitions - 1) times hysteresis is at most the total variation of the voltage; (temperature transitions - 2) times hysteresis is at most that of the temperature, both latches together. |
| `Alarms.LifecycleGrammar` | ground_station/orbitops/alarms.py:135-155 | Over any packet stream the transitions of each stateful identity are a prefix of (RAISED UPDATED* CLEARED)*. |
| `Alarms.FoldGivesActiveIdentities` | ground_station/orbitops/alarms.py:115-125 | Folding an identity's transitions tells exactly whether the engine reports it as active. |
| `Alarms.OnePerIdentityInOrder` | ground_station/orbitops/alarms.py:135-155 | One packet emits at most one transition for each identity, in the order sequence, temperature, battery, mode. |
| `Alarms.TransitionsCross` | ground_station/orbitops/alarms.py:239-299 | Every emitted transition names the threshold that its observed value has crossed, on the side that the transition claims. |
| `AlarmHistory.StateIsConditions` | ground_station/orbitops/alarms.py:213-237 | After any history the state of the engine is whether warning level, critical level, low battery and SAFE hold in the raw readings, and the last sequence number. |
| `AlarmHistory.TransitionsAreAnnounced` | ground_station/orbitops/alarms.py:135-315 | After any history a packet causes exactly the transitions that the raw readings before and after it call for: which and in what order, with severity, code, identity, kind, observed value and threshold. |
| `AlarmHistory.ActiveIsConditions` | ground_station/orbitops/alarms.py:115-125 | The active identities after any history, from the raw readings. |
| `AlarmEvents.SummaryRoundTrip` | ground_station/orbitops/alarm_events.py:232-277 | Attributes read back as counters exactly when they were written from them, total included. |
| `AlarmEvents.LoadAlarmEvents` | ground_station/orbitops/alarm_events.py:627-666 | The loop accepts exactly the logs with well-shaped events, contiguous indices, one session, nondecreasing times, one leading header, a summary only at the end, and counters in it that match; otherwise it names what is wrong first with the first event that does not fit, or with the summary. |
| `AlarmEvents.SummaryDecides` | ground_station/orbitops/alarm_events.py:610-624 | A final summary is accepted exactly when it holds the recomputed counters. |
| `AlarmEvents.AlarmEventRecorder.constructor` | ground_station/orbitops/alarm_events.py:488-521 | An opened recorder has written its header and nothing else. |
| `AlarmEvents.AlarmEventRecorder.WriteTransitions` | ground_station/orbitops/alarm_events.py:547-563 | One event for each transition, in order, under the packet's sequence; refused exactly by a closed recorder with something to write. |
| `AlarmEvents.AlarmEventRecorder.Close` | ground_station/orbitops/alarm_events.py:565-580 | The summary is written once, however often the recorder is closed. |
| `AlarmEvents.OpenLogAccepted` | ground_station/orbitops/alarm_events.py:627-666 | After any transitions the open log is accepted by the loader if and only if the elapsed readings never went back. |
| `AlarmEvents.ClosedLogAccepted` | ground_station/orbitops/alarm_events.py:610-666 | The same for the closed log up to its summary, whose counters always check out. |
| `AlarmEvents.NondecreasingClockIsSteady` | ground_station/orbitops/alarm_events.py:529-531 | A nondecreasing clock meets that condition. |
| `AlarmEvents.CountersCountTransitions` | ground_station/orbitops/alarm_events.py:589-597 | The recorder's counters are the numbers of transitions of each type, and their total misses none. |
| `LogMeaning.AlarmLogMeans` | ground_station/orbitops/alarm_events.py:610-666 | The alarm loader accepts a log exactly if its first record is a header, each other may follow the one before it, and a summary counts the transitions by type. |
| `LogMeaning.AlarmPrefixAccepted` | ground_station/orbitops/alarm_events.py:627-666 | An accepted alarm log can be cut short before its last event. |
| `LogMeaning.AlarmRemovalRefused` | ground_station/orbitops/alarm_events.py:627-666 | Without any one of its events other than the last it is refused. |
| `LogMeaning.AlarmOrderIsFixed` | ground_station/orbitops/alarm_events.py:627-666 | At most one arrangement of the same events is accepted. |
| `ReceiverRecord.LogHolds` | ground_station/orbitops/alarm_events.py:547-563 | Event k + 1 of a recorded log has the fields of transition k, its packet's sequence, its number and the clamped time since opening. |
| `ReceiverRecord.ClosingAdds` | ground_station/orbitops/alarm_events.py:565-580 | Closing adds one summary, which counts the events before it by type and in total. |
| `TelemetryRecording.DecodedNamesRows` | ground_station/orbitops/recorder.py:87-111 | The decoded rows keep their original numbers, in order, and no decodable row is missing. |
| `TelemetryRecording.SessionRecorder.Write` | ground_station/orbitops/recorder.py:126-136 | A row is appended under the next number. |
| `Receiver.ProcessPacket` | ground_station/orbitops/receiver.py:52-63 | An undecodable datagram changes neither engine nor log; any other is evaluated and its transitions logged under its sequence. |
| `Receiver.GroundStation.Receive` | ground_station/orbitops/receiver.py:113-124 | Every datagram is recorded first, refused or not; engine, recording and alarm log are as after the datagrams so far. |
| `Receiver.GroundStation.Listen` | ground_station/orbitops/receiver.py:113-124 | After any datagrams the recording holds all of them, the engine is in the state of the decoded ones, and the closed alarm log holds their transitions. |
| `Receiver.EntriesAreTransitions` | ground_station/orbitops/receiver.py:57-61 | The logged transitions are those that the engine emitted, in order. |
| `Receiver.EntriesNamePackets` | ground_station/orbitops/receiver.py:57-61 | Every logged transition carries the sequence of a decoded packet. |
| `ReceiverRecord.EntriesAreHistory` | ground_station/orbitops/receiver.py:52-63 | What the receiver has logged after any packets is, for each in turn, what the raw readings call for, under its sequence. |
| `Correlation.ClassifyTelemetryAlarmMatch` | ground_station/orbitops/session/correlation.py:201-242 | The scan refuses exactly out-of-range sequences and otherwise returns the decision for all positions of the target. |
| `Correlation.OccurrencesAreAll` | ground_station/orbitops/session/correlation.py:217-226 | The candidates are exactly the positions of the target, ascending. |
| `Correlation.DecisionMeaning` | ground_station/orbitops/session/correlation.py:227-242 | EXACT, AMBIGUOUS and IMPOSSIBLE mean one, several and no occurrence, and every decision passes its constructor. |
| `Correlation.CompletenessMeans` | ground_station/orbitops/session/correlation.py:255-281 | A source is complete, incomplete, unknown or refused exactly by lane, number of records and summary. |
| `Ordering.LessMeans` | ground_station/orbitops/session/models.py:330-346 | Keys compare at their first difference, and a beginning comes before its continuation. |
| `Ordering.SortBySorts` | ground_station/orbitops/session/inspection.py:639-650 | Sorting by key gives a permutation in key order. |
| `Ordering.SortByFixes` | ground_station/orbitops/session/models.py:370-373 | Comparing with the sorted copy accepts exactly the sequences in key order. |
| `SessionModels.FlatKeyIsTupleOrder` | ground_station/orbitops/session/models.py:330-346 | The flattened diagnostic key orders diagnostics as the nested key tuples do. |
| `SessionModels.RanksMean` | ground_station/orbitops/session/models.py:49-55 | Diagnostics rank by lane, without one last; by index, without one first; then error, warning, info. |
| `SessionModels.CodesAlphabetical` | ground_station/orbitops/session/models.py:58-72 | Diagnostic codes rank as their names stand in the alphabet. |
| `SessionModels.EntryOrder` | ground_station/orbitops/session/correlation.py:245-252 | Timeline entries are ordered by lane precedence and then by source index. |
| `SequenceInspection.TelemetrySequenceDiagnostics` | ground_station/orbitops/session/inspection.py:122-180 | The three loops give the duplicates in sequence order, then the gaps in row order; the duplicate count is decoded rows less distinct sequences. |
| `SequenceInspection.GapsAreStated` | ground_station/orbitops/session/inspection.py:148-180 | There are as many gap diagnostics as gaps counted, each worded from the numbers of its own two rows. |
| `SequenceInspection.MissingIsStated` | ground_station/orbitops/session/inspection.py:152-170 | The missing counts that the gap messages state add up to the total over all gaps of the recording. |
| `SequenceInspection.DistinctCount` | ground_station/orbitops/session/inspection.py:126-132 | The distinct sequences counted are as many as there are different numbers in the recording. |
| `SequenceInspection.TotalOfAll` | ground_station/orbitops/session/inspection.py:126-136 | Every decoded row is indexed under exactly one distinct sequence. |
| `SequenceInspection.DuplicateListed` | ground_station/orbitops/session/inspection.py:130-146 | A duplicate diagnostic is emitted for exactly the sequences that occur more than once. |
| `SequenceInspection.ScanAgreesWithIndex` | ground_station/orbitops/session/inspection.py:104-119 | The alarm scan, translated to row numbers, names the rows that the duplicate index lists, in the same order. |
| `LossAccounting.GapsAreLossRuns` | ground_station/orbitops/session/inspection.py:148-180 | If a consecutive 32-bit counter lost runs shorter than 2^31, the gap count is the number of loss runs between first and last survivor and the missing counts sum to the packets lost there, from any start value. |
| `LossAccounting.GapBetween` | ground_station/orbitops/session/inspection.py:152-163 | Between two consecutive survivors there is a gap exactly when something was lost, and it states how much. |
| `LossAccounting.EngineGaps` | ground_station/orbitops/alarms.py:157-175 | The engine's gap transitions over a stream are the inspector's gaps plus the immediate repeats, and none when detection is off. |
| `LossAccounting.SurvivorsNeverRepeat` | ground_station/orbitops/alarms.py:157-175 | A consecutive 32-bit counter whose loss runs are shorter than 2^31 never arrives at the same number twice in a row. |
| `Inspection.ScanTelemetry` | ground_station/orbitops/session/inspection.py:194-242 | The loop over the rows: one entry a row, one diagnostic a rejected row, and the decoded rows. |
| `Inspection.NormalizeTelemetry` | ground_station/orbitops/session/inspection.py:183-275 | The telemetry lane's summary, entries and diagnostics as specified, and the decoded rows for the alarm lane. |
| `Inspection.TranslateCorrelation` | ground_station/orbitops/session/inspection.py:104-119 | The decision for an alarm names exactly the original rows that carry its sequence. |
| `Inspection.NormalizeAlarm` | ground_station/orbitops/session/inspection.py:290-398 | One entry for each transition with its decision; a diagnostic for each ambiguous and each impossible one; a note on a missing end. |
| `Inspection.NormalizeLink` | ground_station/orbitops/session/inspection.py:412-492 | One entry for each packet event; a diagnostic for each corruption; a note on a missing end; the recomputed counters. |
| `SessionValidity.FindingsDistinct` | ground_station/orbitops/session/inspection.py:645-650 | No two diagnostics of a session share lane, source index and code; all pass their constructor; none is a truncation notice. |
| `SessionNormalization.TimelineInOrder` | ground_station/orbitops/session/inspection.py:639-644 | The concatenated lanes are already in presentation order with distinct keys, so the sort changes nothing, and every entry passes its constructor. |
| `SessionNormalization.NormalizationSucceeds` | ground_station/orbitops/session/models.py:136-152 | Every record of the session of loaded evidence passes its constructor if and only if no given file has a blank name and the link session identifier holds no NUL. |
| `SessionNormalization.NulSessionIsRefused` | ground_station/orbitops/link/events.py:184-206 | A given one-event link log with a NUL in its session identifier passes the strict loader, and its session is refused. |
| `SessionNormalization.BlankNameIsRefused` | ground_station/orbitops/session/inspection.py:73-95 | An empty recording in a file called by a single space passes the strict loader, and its session is refused. |
| `SessionNormalization.DiagnosticsDistinct` | ground_station/orbitops/session/inspection.py:645-650 | The sorted diagnostics of a session repeat nothing. |
| `SessionNormalization.NormalizeLoadedSession` | ground_station/orbitops/session/inspection.py:590-655 | Normalization fails exactly on a blank source name or a NUL in the link session identifier, naming the first such lane, and otherwise returns the specified, valid session. |
| `SessionNormalization.NormalizationErrorMeans` | ground_station/orbitops/session/inspection.py:590-650 | The lane named is the first with a blank source name; the session identifier is blamed only when no name is. |
| `SessionNormalization.InspectSession` | ground_station/orbitops/session/inspection.py:537-677 | Inspection succeeds exactly when a source is given, each passes its strict loader, no given name is blank and the link identifier holds no NUL; then it returns the specified session, and otherwise names the first of these that fails, lane by lane, loading before normalizing. |
| `SessionFindings.SessionReportsWarranted` | ground_station/orbitops/session/inspection.py:183-492 | A session of loaded evidence holds a diagnostic exactly when the raw evidence warrants it, with its wording and all fields, each once and in order: a row that does not decode, a sequence that several rows carry, a gap between neighbouring decoded rows, an alarm whose sequence no row or several rows carry, a corruption, an empty, missing or unclosed source. |
| `SessionFindings.TimelineHoldsBelonging` | ground_station/orbitops/session/inspection.py:183-492 | Its timeline holds exactly one entry for each row, each alarm transition, matched with all rows that carry its sequence, and each link event but header and summary, with all fields, in lane and index order. |
| `SessionFindings.TelemetrySummaryTells` | ground_station/orbitops/session/inspection.py:246-268 | The telemetry summary counts the rows, those that decode, the rejections and the gaps reported in the session, and the decoded rows that repeat a number. |
| `SessionFindings.SummariesTell` | ground_station/orbitops/session/inspection.py:537-636 | The three summaries in lane order: name, record count, completeness, schema, session, counters by type and metadata, and zeros for a source not given. |
| `SessionVerdicts.IncompleteMeans` | ground_station/orbitops/session/models.py:388-392 | A session is incomplete exactly when a lane is missing or empty or lacks the closing record of its contract. |
| `SessionVerdicts.IncompatibleMeans` | ground_station/orbitops/session/models.py:394-398 | A session is incompatible exactly when some alarm's sequence occurs in more than one decoded row. |
| `SessionRecovery.TelemetryEntryRecovers` | ground_station/orbitops/session/inspection.py:194-235 | A decoded telemetry entry determines its row to the byte; an entry is a rejection exactly when its row does not decode. |
| `SessionRecovery.AlarmLaneRecovers` | ground_station/orbitops/session/inspection.py:299-320 | The alarm entries of a session are the log's transitions, all of them, in order, with every field recoverable. |
| `SessionRecovery.LinkLaneRecovers` | ground_station/orbitops/session/inspection.py:419-432 | The link entries of a session are the log's packet events, all of them, in order, with every field recoverable. |
| `ReceiverInspection.CandidatesAreRows` | ground_station/orbitops/session/inspection.py:104-119 | A row is a candidate for an alarm exactly when it decodes to the alarm's sequence, counted among all rows. |
| `ReceiverInspection.AmbiguousIffDuplicate` | ground_station/orbitops/session/inspection.py:304-335 | An alarm is AMBIGUOUS exactly when the session has a duplicate diagnostic that lists the very rows named by the alarm. |
| `ReceiverInspection.ReceiverCorrelates` | ground_station/orbitops/receiver.py:113-124 | At every prefix of a receiver run no alarm is IMPOSSIBLE; it is EXACT exactly when its sequence occurs once among the decoded rows; candidates are original row numbers. |
| `ReceiverInspection.ReceiverNeverImpossible` | ground_station/orbitops/session/inspection.py:336-348 | The two streams of a run load exactly when the alarm clock was steady, and their session holds no impossible correlation. |
| `ReceiverInspection.AlarmGapsAreTelemetryGaps` | ground_station/orbitops/alarms.py:157-175 | Over any datagrams received, with gap detection on, the alarm log's sequence-gap events number the gaps that the inspector finds in the recording plus the immediate repeats in it; with detection off there is none. |
| `Reporting.CheckReport` | ground_station/orbitops/session/reporting.py:146-212 | The checks, with the list that loses one session diagnostic at a time, accept exactly the acceptable reports and otherwise name the first fault in the order of the source. |
| `Reporting.RemoveAll` | ground_station/orbitops/session/reporting.py:186-193 | Removing the session's diagnostics one by one succeeds exactly when the report contains them all, and leaves the rest. |
| `Reporting.AcceptedReport` | ground_station/orbitops/session/reporting.py:146-212 | An accepted report shows a subsequence of the session timeline and the session's diagnostics plus exactly one new truncation notice when truncated. |
| `Reporting.ProjectSessionReport` | ground_station/orbitops/session/reporting.py:300-373 | Refuses exactly invalid filters; otherwise builds the projection and returns it exactly when its own checks accept it, or else their first fault. |
| `Reporting.KeptIsFilter` | ground_station/orbitops/session/reporting.py:273-297 | Filtering keeps exactly the matching entries, in order. |
| `ReportMeaning.FiltersAllowed` | ground_station/orbitops/session/reporting.py:229-271 | Filters are accepted exactly within 0 to 2^32 - 1, in order, and with a limit from 1 to 10000. |
| `ReportMeaning.ProjectionShows` | ground_station/orbitops/session/reporting.py:300-373 | For every session and allowed filters the projection shows the first entries that pass every filter set, as many as the limit allows, with exact totals; it is truncated exactly when more pass, and then its diagnostics are the session's and one notice. |
| `ReportMeaning.AcceptableMeans` | ground_station/orbitops/session/reporting.py:146-212 | A report on a session is acceptable exactly if it shows a subsequence of the timeline, its totals fit, and its sorted diagnostics are the session's and, when truncated, one notice. |
| `Reporting.ProjectedIsAccepted` | ground_station/orbitops/session/reporting.py:300-373 | Every projection of a normalized session, for all valid filters and limits, passes every check. |
| `Reporting.UnfilteredIsAccepted` | ground_station/orbitops/session/reporting.py:214-226 | The unfiltered report of a normalized session is accepted and is the projection without filters. |
| `LinkInspection.RowsFollowLog` | ground_station/orbitops/link/runtime.py:236-280 | For every link of valid configuration and every run, the rows of the recording are the log's forwarding events one for one; row k decodes exactly when event k names no corrupted bit, and then to the packet that event k names. |
| `LinkInspection.InspectorAgreesWithLink` | ground_station/orbitops/session/inspection.py:194-275 | End to end over every run, with any jitter, window and duplication, drained or not: the inspector's record total is the log's forwarded count, decoded counts the forwarding events without a corrupted bit, and rejected the rest. |
| `LinkInspection.DrainedCounters` | ground_station/orbitops/session/inspection.py:237-275 | Over every run with nothing pending, in the link's own counters: decoded = received - dropped - corrupted + second copies of intact packets, rejected = corrupted + second copies of corrupted packets, and the second copies add up to duplicated. |
| `LinkInspection.LinkLaneComplete` | ground_station/orbitops/session/inspection.py:412-492 | The log of every finished run loads, is complete, and shows the stream's own counters; its lane passes its constructor exactly when the file name is not blank and the session identifier holds no NUL. |
| `LinkLosses.OutputIsPrefix` | ground_station/orbitops/link/runtime.py:320-336 | With zero jitter and a window of at most one, what has been sent at any loop head is what the engine produces of the first m packets, in that order, where m is one more than the index sent last. |
| `LinkLosses.DecodedAreArriving` | ground_station/orbitops/session/inspection.py:194-242 | What decodes of all that the engine produces of consecutively numbered packets are the numbers of the packets neither dropped nor corrupted, in order, doubled where the packet is. |
| `LinkLosses.GapsTellLosses` | ground_station/orbitops/session/inspection.py:122-180 | End to end over a first-in-first-out link, drained or not, with duplication: the inspector's gaps are the loss runs and the missing counts that its messages state add up to the packets lost in them, among the packets sent and if loss runs are short; duplicates counts the second copies of intact packets, plus any repeat of the counter itself after 2^32 packets. |
| `LinkLosses.AlarmsTellLosses` | ground_station/orbitops/alarms.py:157-175 | Across link, receiver and alarm engine, over such a run with gap detection on: the receiver's alarm log holds one sequence-gap event for each loss run and one for each second copy of an intact packet. |

## Left out

- Sockets, signals, threads, files and process exits: inputs, outputs and clocks are abstract sequences and functions.
- A failed `sendto` in the middle of a batch, or an event sink that raises, ends a run abnormally: only runs whose output and sink accept everything are modelled.
- A second `run` on the same runtime object: the model starts from a freshly opened runtime.
- Runs that are neither stopped nor bounded by a packet limit: `LinkRuntime.LinkRuntime.Run` assumes that receiving ends at some pass, because otherwise the loop does not end.
- Polling: timeouts and sleeps are computed in nanoseconds, and how long the process really waits is not modelled.
- JSON, TOML and hexadecimal text, `struct` and `heapq`: records are modelled as decoded values, and the heap is the model's own array heap.
- Calculation of configuration and policy fingerprints: the loaders' checks on their form are modelled, and how they are computed is not.
- Wording of diagnostics: `Wording` is any function from what a message says to non-empty text, and sort keys include that text.
- Alarm messages, and observed values or thresholds of other types in hand-written alarm logs: transitions carry the typed values that the engine emits.
- The packet validator reports the first offending field: `Codec.ValidatePacket` merges the range errors of all fields into one.
- Rounding of floating-point thresholds: temperatures, voltages and thresholds are compared as reals.
- A recorder clock that returns negative or non-integer readings, which the alarm recorder refuses: its readings are natural numbers.
- Text of alarm-code and severity filters: filters carry the parsed code and severity.
- Bursts that straddle the end of the body and the stored CRC: the CRC is stored big-endian after a reflected calculation, and no claim is made for them.
- LinkLosses.GapsTellLosses: covers links with zero jitter and a reorder window of at most one, because otherwise recorded order is not counter order and the inspector counts reversals as gaps.
- Replay, path alias checks, command-line adapters, catalogs, profile parsers, report rendering and the telemetry scenario: they would add only easy members.
