/** From the link's input to the inspector's numbers: a run, its output received, and its log inspected. */
module LinkInspection {
  import opened Wrappers
  import opened Correlation
  import opened Impairments
  import opened Inspection
  import opened LinkEvidence
  import opened LinkOrder
  import opened LinkRun
  import opened LinkTrace
  import opened Receiver
  import opened Schedule
  import opened SequenceInspection
  import opened SessionModels
  import opened TelemetryRecording
  import Codec
  import LinkEvents
  import ReceiverInspection
  import Texts

  // ---------- what decodes of a stream of datagrams ----------

  /** The sequence numbers of the datagrams that decode, in order. */
  function DecodedSequences(raws: seq<Bytes>): seq<int> {
    if raws == [] then []
    else
      var decoded := Codec.DecodePacket(raws[|raws| - 1]);
      DecodedSequences(raws[..|raws| - 1]) + (if decoded.Success? then [decoded.value.sequence] else [])
  }

  lemma {:induction false} DecodedConcat(a: seq<Bytes>, b: seq<Bytes>)
    ensures DecodedSequences(a + b) == DecodedSequences(a) + DecodedSequences(b)
  {
    hide Codec.DecodePacket;
    if b == [] {
      assert a + b == a;
    } else {
      assert (a + b)[..|a + b| - 1] == a + b[..|b| - 1];
      DecodedConcat(a, b[..|b| - 1]);
    }
  }

  function Payloads(items: seq<ScheduledDatagram>): (r: seq<Bytes>)
    ensures |r| == |items| && forall k :: 0 <= k < |r| ==> r[k] == items[k].payload
  {
    seq(|items|, k requires 0 <= k < |items| => items[k].payload)
  }

  /** What the receiver's recording shows of the datagrams it got. */
  lemma {:induction false} RecordingShows(received: seq<Received>, raws: seq<Bytes>)
    requires |received| == |raws| && forall k :: 0 <= k < |raws| ==> received[k].raw == raws[k]
    ensures Numbers(SightingsOf(Rows(received))) == DecodedSequences(raws)
  {
    hide Codec.DecodePacket;
    if received == [] {
    } else {
      var n := |received| - 1;
      RecordingShows(received[..n], raws[..n]);
      assert Rows(received)[..n] == Rows(received[..n]);
      DecodedAppend(Rows(received[..n]), Rows(received)[n]);
      assert Rows(received) == Rows(received[..n]) + [Rows(received)[n]];
    }
  }

  // ---------- every run, row by row ----------

  /** The link's input: one encoded packet for each arrival. */
  ghost predicate Encoded(arrivals: seq<Arrival>, packets: seq<Codec.TelemetryPacket>) {
    && |packets| == |arrivals|
    && forall k {:trigger packets[k]} :: 0 <= k < |packets| ==>
      && Codec.ValidatePacket(packets[k]) == None
      && arrivals[k].payload == Codec.EncodePacket(packets[k]).value
  }

  lemma EncodedNotEmpty(p: Codec.TelemetryPacket)
    requires Codec.ValidatePacket(p) == None
    ensures Codec.EncodePacket(p).Success? && Codec.EncodePacket(p).value != []
  {
    Codec.BodyLength(p);
  }

  /** The receiver got what the run forwarded. */
  ghost predicate Delivered(setup: Setup, turns: seq<Turn>, received: seq<Received>)
    requires setup.Valid()
  {
    var f := Run(setup, turns).forwarded;
    |received| == |f| && forall k :: 0 <= k < |f| ==> received[k].raw == f[k].payload
  }

  /** What the link logs of one datagram sent: its packet and its attributes. */
  type Sent = (Option<int>, LinkEvents.Attributes)

  /** A forwarding event that reports no corrupted bit. */
  predicate Clean(e: Sent) {
    e.1.Fields? && LinkEvents.BitIndex in e.1.fields && e.1.fields[LinkEvents.BitIndex] == LinkEvents.Null
  }

  function CleanCount(trace: seq<Sent>): nat {
    if trace == [] then 0
    else CleanCount(trace[..|trace| - 1]) + One(Clean(trace[|trace| - 1]))
  }

  /** `raw` decodes to the packet of the given number. */
  predicate DecodesTo(raw: Bytes, packets: seq<Codec.TelemetryPacket>, index: Option<int>) {
    && index.Some? && 0 <= index.value < |packets|
    && Codec.DecodePacket(raw) == Success(packets[index.value])
  }

  /** Every delivery ever sent decodes exactly when it is uncorrupted, and then to the packet it was made from. */
  lemma SentDecodes(
    config: LinkConfig, s: LinkState, packets: seq<Codec.TelemetryPacket>, x: ScheduledDatagram)
    requires config.Valid() && Conserved(config, s) && Encoded(s.arrivals, packets)
    requires x in s.forwarded
    ensures x.packetIndex < |packets|
    ensures Codec.DecodePacket(x.payload).Success? <==> x.corruptedBit == None
    ensures x.corruptedBit == None ==> Codec.DecodePacket(x.payload) == Success(packets[x.packetIndex])
  {
    hide Codec.DecodePacket, Codec.EncodePacket, Codec.ValidatePacket, OutcomeAt, Conserved;
    PendingIdentified(config, s);
    assert IsItem(config, s.arrivals, x);
    var p := packets[x.packetIndex];
    Codec.DeliveryDecodesIffUncorrupted(config, x.packetIndex, p, x.copyIndex);
  }

  lemma CleanMeansUncorrupted(x: ScheduledDatagram)
    ensures Clean((Some(x.packetIndex as int), LinkEvents.Fields(ForwardFields(x)))) <==> x.corruptedBit == None
  {
  }

  /**
   * Row by row, for every run: the k-th row of the recording decodes exactly when the k-th
   * forwarding event of the log reports no corrupted bit, and then to the packet that the event names.
   */
  lemma RowsFollowLog(
    setup: Setup, turns: seq<Turn>, packets: seq<Codec.TelemetryPacket>, received: seq<Received>, k: nat)
    requires setup.Valid() && Encoded(Run(setup, turns).arrivals, packets) && Delivered(setup, turns, received)
    requires k < |received|
    ensures var trace := TraceOf(Run(setup, turns).log, LinkEvents.PacketForwarded);
      && |trace| == |received|
      && (Codec.DecodePacket(received[k].raw).Success? <==> Clean(trace[k]))
      && (Clean(trace[k]) ==> DecodesTo(received[k].raw, packets, trace[k].0))
  {
    hide LinkRun.Run, Codec.DecodePacket, Encoded, Conserved, TraceOf;
    var s := Run(setup, turns);
    LogTellsOutput(setup, turns);
    ExactlyOnce(setup, turns);
    var x := s.forwarded[k];
    assert x in s.forwarded;
    SentDecodes(setup.config, s, packets, x);
    CleanMeansUncorrupted(x);
  }

  /** As many rows decode as there are clean events, when they correspond one for one. */
  lemma {:induction false} CountsFollow(raws: seq<Bytes>, trace: seq<Sent>)
    requires |raws| == |trace|
    requires forall k :: 0 <= k < |raws| ==> (Codec.DecodePacket(raws[k]).Success? <==> Clean(trace[k]))
    ensures |DecodedSequences(raws)| == CleanCount(trace)
  {
    hide Codec.DecodePacket, Clean;
    if raws == [] {
    } else {
      CountsFollow(raws[..|raws| - 1], trace[..|trace| - 1]);
    }
  }

  lemma ForwardedCounted(setup: Setup, turns: seq<Turn>)
    requires setup.Valid()
    ensures LinkEvents.StatisticsOf(Run(setup, turns).log).deliveriesForwarded == |Run(setup, turns).forwarded|
  {
    CountersAddUp(setup, turns);
  }

  lemma SameLength(records: seq<RecordedTelemetryRecord>)
    ensures |Numbers(SightingsOf(records))| == |SightingsOf(records)|
  {
  }

  /**
   * End to end, for every run, whatever its jitter, window and duplication, drained or not: of the
   * datagrams sent, the inspector decodes as many as the log forwards without a corrupted bit, and
   * rejects all the others.
   */
  lemma InspectorAgreesWithLink(
    setup: Setup, turns: seq<Turn>, packets: seq<Codec.TelemetryPacket>, received: seq<Received>, name: string)
    requires setup.Valid() && Encoded(Run(setup, turns).arrivals, packets) && Delivered(setup, turns, received)
    ensures var c := TelemetrySummary(name, Rows(received)).counters;
      var log := Run(setup, turns).log; var trace := TraceOf(log, LinkEvents.PacketForwarded);
      && c.recordsTotal == |trace| == LinkEvents.StatisticsOf(log).deliveriesForwarded
      && c.decoded == CleanCount(trace)
      && c.rejected == |trace| - CleanCount(trace)
  {
    hide LinkRun.Run, Codec.DecodePacket, Encoded, TraceOf, LinkEvents.StatisticsOf, DistinctSequences, GapCount,
      SightingsOf, Clean, Accounted, CorruptionAccounted;
    var s := Run(setup, turns);
    var trace := TraceOf(s.log, LinkEvents.PacketForwarded);
    LogTellsOutput(setup, turns);
    ForwardedCounted(setup, turns);
    var raws := Payloads(s.forwarded);
    forall k | 0 <= k < |raws|
      ensures Codec.DecodePacket(raws[k]).Success? <==> Clean(trace[k])
    {
      RowsFollowLog(setup, turns, packets, received, k);
    }
    CountsFollow(raws, trace);
    RecordingShows(received, raws);
    SameLength(Rows(received));
  }

  // ---------- drained runs: the counters of packets ----------

  /** How many of the first `n` packets leave as two copies, with or without a corrupted bit. */
  function TwinCount(config: LinkConfig, n: nat, corrupted: bool): nat
    requires config.Valid()
  {
    if n == 0 then 0
    else
      TwinCount(config, n - 1, corrupted)
      + One(!Drops(config, n - 1) && Duplicates(config, n - 1) && Corrupts(config, n - 1) == corrupted)
  }

  lemma {:induction false} TwinsAreDuplicates(config: LinkConfig, n: nat)
    requires config.Valid()
    ensures TwinCount(config, n, true) + TwinCount(config, n, false) == DuplicateCount(config, n)
  {
    hide Drops, Duplicates, Corrupts;
    if n == 0 {
    } else {
      TwinsAreDuplicates(config, n - 1);
    }
  }

  function CleanItems(items: seq<ScheduledDatagram>): nat {
    if items == [] then 0
    else CleanItems(items[..|items| - 1]) + One(items[|items| - 1].corruptedBit == None)
  }

  lemma {:induction false} CleanConcat(a: seq<ScheduledDatagram>, b: seq<ScheduledDatagram>)
    ensures CleanItems(a + b) == CleanItems(a) + CleanItems(b)
  {
    if b == [] {
      assert a + b == a;
    } else {
      assert (a + b)[..|a + b| - 1] == a + b[..|b| - 1];
      CleanConcat(a, b[..|b| - 1]);
    }
  }

  lemma CleanSingle(x: ScheduledDatagram)
    ensures CleanItems([x]) == One(x.corruptedBit == None)
  {
    assert [x][..0] == [];
  }

  /** One delivery less: what remains, and the count of it. */
  lemma Without(g: seq<ScheduledDatagram>, k: nat) returns (rest: seq<ScheduledDatagram>)
    requires k < |g|
    ensures multiset(rest) == multiset(g) - multiset{g[k]}
    ensures CleanItems(g) == CleanItems(rest) + One(g[k].corruptedBit == None)
  {
    hide CleanItems;
    var x, a, b := g[k], g[..k], g[k + 1..];
    rest := a + b;
    assert g == a + ([x] + b);
    CleanConcat(a, [x] + b);
    CleanConcat([x], b);
    CleanConcat(a, b);
    CleanSingle(x);
  }

  /** The count does not depend on the order. */
  lemma {:induction false} CleanOfPermutation(f: seq<ScheduledDatagram>, g: seq<ScheduledDatagram>)
    requires multiset(f) == multiset(g)
    ensures CleanItems(f) == CleanItems(g)
  {
    SameSize(f, g);
    if f == [] {
    } else {
      var x := f[|f| - 1];
      assert x in multiset(g);
      var k :| 0 <= k < |g| && g[k] == x;
      var rest := Without(g, k);
      DropLast(f);
      assert multiset(f[..|f| - 1]) == multiset(f) - multiset{x};
      CleanOfPermutation(f[..|f| - 1], rest);
    }
  }

  lemma {:induction false} CleanOfForwarding(items: seq<ScheduledDatagram>)
    ensures CleanCount(Forwarding(items)) == CleanItems(items)
  {
    hide ForwardFields, Clean;
    if items == [] {
    } else {
      var init, x := items[..|items| - 1], items[|items| - 1];
      CleanOfForwarding(init);
      CleanMeansUncorrupted(x);
      assert Forwarding(items)[..|init|] == Forwarding(init);
    }
  }

  lemma CleanNone()
    ensures CleanItems([]) == 0
  {
  }

  /** What one packet adds to the uncorrupted deliveries. */
  lemma CleanOfOutcome(config: LinkConfig, index: nat, payload: Bytes, at: int)
    requires config.Valid() && payload != []
    ensures CleanItems(Scheduled(OutcomeAt(config, index, payload), at)) ==
      if Drops(config, index) || Corrupts(config, index) then 0 else if Duplicates(config, index) then 2 else 1
  {
    hide OutcomeAt, Drops, Corrupts, Duplicates, CleanItems;
    var o := OutcomeAt(config, index, payload);
    OutcomeShape(config, index, payload);
    OutcomeCorruption(config, index, payload);
    var items := Scheduled(o, at);
    if |items| == 0 {
      assert items == [];
      CleanNone();
    } else if |items| == 1 {
      assert items == [items[0]];
      CleanSingle(items[0]);
    } else {
      assert items == [items[0]] + [items[1]];
      CleanConcat([items[0]], [items[1]]);
      CleanSingle(items[0]);
      CleanSingle(items[1]);
    }
  }

  lemma {:induction false} CleanOfProduced(config: LinkConfig, arrivals: seq<Arrival>)
    requires config.Valid() && forall k :: 0 <= k < |arrivals| ==> arrivals[k].payload != []
    ensures var n := |arrivals|;
      CleanItems(Produced(config, arrivals)) ==
      n - DropCount(config, n) - CorruptCount(config, arrivals) + TwinCount(config, n, false)
  {
    hide OutcomeAt, Drops, Corrupts, Duplicates, Scheduled;
    if arrivals == [] {
    } else {
      var n := |arrivals| - 1;
      var init, last := arrivals[..n], arrivals[n];
      CleanOfProduced(config, init);
      CleanOfOutcome(config, n, last.payload, last.receivedAtNs);
      CleanConcat(Produced(config, init), Scheduled(OutcomeAt(config, n, last.payload), last.receivedAtNs));
    }
  }

  lemma PayloadsNotEmpty(arrivals: seq<Arrival>, packets: seq<Codec.TelemetryPacket>)
    requires Encoded(arrivals, packets)
    ensures forall k :: 0 <= k < |arrivals| ==> arrivals[k].payload != []
  {
    hide Codec.EncodePacket, Codec.ValidatePacket;
    forall k | 0 <= k < |arrivals|
      ensures arrivals[k].payload != []
    {
      EncodedNotEmpty(packets[k]);
    }
  }

  lemma CountersOfRun(setup: Setup, turns: seq<Turn>)
    requires setup.Valid() && Run(setup, turns).agenda == []
    ensures var s := Run(setup, turns); var d := LinkEvents.StatisticsOf(s.log); var n := |s.arrivals|;
      && d.packetsReceived == n
      && d.packetsDropped == DropCount(setup.config, n)
      && d.packetsDuplicated == DuplicateCount(setup.config, n)
      && d.packetsCorrupted == CorruptCount(setup.config, s.arrivals)
      && d.deliveriesForwarded == |s.forwarded| == n - DropCount(setup.config, n) + DuplicateCount(setup.config, n)
  {
    CountersAddUp(setup, turns);
  }

  /**
   * For every drained run the inspector's counters are those of the link: decoded is received less
   * dropped less corrupted, rejected is corrupted, each with the second copies of its own kind added,
   * and these second copies are together what the link counts as duplicated.
   */
  lemma DrainedCounters(
    setup: Setup, turns: seq<Turn>, packets: seq<Codec.TelemetryPacket>, received: seq<Received>, name: string)
    requires setup.Valid() && Encoded(Run(setup, turns).arrivals, packets) && Delivered(setup, turns, received)
    requires Run(setup, turns).agenda == []
    ensures var c := TelemetrySummary(name, Rows(received)).counters; var n := |Run(setup, turns).arrivals|;
      var d := LinkEvents.StatisticsOf(Run(setup, turns).log);
      var intactTwins, corruptedTwins := TwinCount(setup.config, n, false), TwinCount(setup.config, n, true);
      && c.decoded == d.packetsReceived - d.packetsDropped - d.packetsCorrupted + intactTwins
      && c.rejected == d.packetsCorrupted + corruptedTwins
      && intactTwins + corruptedTwins == d.packetsDuplicated
  {
    hide LinkRun.Run, LinkEvents.StatisticsOf, TraceOf, TelemetrySummary, Encoded, DropCount, CorruptCount, TwinCount,
      DuplicateCount, Produced, CleanCount, CleanItems;
    var s := Run(setup, turns);
    InspectorAgreesWithLink(setup, turns, packets, received, name);
    LogTellsOutput(setup, turns);
    CleanOfForwarding(s.forwarded);
    ExactlyOnce(setup, turns);
    CleanOfPermutation(s.forwarded, Produced(setup.config, s.arrivals));
    PayloadsNotEmpty(s.arrivals, packets);
    CleanOfProduced(setup.config, s.arrivals);
    CountersOfRun(setup, turns);
    TwinsAreDuplicates(setup.config, |s.arrivals|);
  }

  // ---------- the link lane ----------

  lemma FirstEventOf(log: seq<LinkEvents.LinkEvent>)
    requires LinkEvents.AcceptedLog(log) && log != []
    ensures LinkEvents.EventShape(log[0])
  {
    assert LinkEvents.EventFits(log, 0);
  }

  lemma SessionOfRun(setup: Setup, turns: seq<Turn>)
    requires setup.Valid() && Clocked(setup, turns)
    ensures Run(setup, turns).log != [] && Run(setup, turns).log[0].sessionId == setup.sessionId
  {
    RunLogOpen(setup, turns);
  }

  /** The inspector accepts the run's log, finds it complete, and shows the stream's own counters. */
  lemma LinkLaneComplete(setup: Setup, turns: seq<Turn>, endNs: int, name: string)
    requires setup.Valid() && Clocked(setup, turns) && LastReading(setup, turns) <= endNs
    requires Openable(name)
    ensures var s := Run(setup, turns); var log := Finished(setup, s, endNs); var lane := LinkSummary(name, log);
      && ReceiverInspection.LinkLoaded(Some(Source(name, log)))
      && lane.source.completeness == Complete && lane.summaryPresent
      && lane.counters == LinkCounters(LinkEvents.StatisticsOf(s.log))
      && (lane.Valid() <==> Texts.NonBlank(name) && '\0' !in setup.sessionId)
  {
    hide LinkRun.Run, Clocked, LinkEvents.StatisticsOf, LinkEvents.AcceptedLog, LinkEvents.ValidateRunSummary;
    FinishedLogVerifies(setup, turns, endNs);
    var s := Run(setup, turns);
    var log := Finished(setup, s, endNs);
    FirstEventOf(log);
    SessionOfRun(setup, turns);
  }
}
