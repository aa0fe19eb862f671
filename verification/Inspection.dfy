/** Normalization of the three evidence lanes into one session. */
module Inspection {
  import opened Wrappers
  import opened Correlation
  import opened Ordering
  import opened SequenceInspection
  import opened SessionModels
  import opened TelemetryRecording
  import AlarmEvents
  import Codec
  import LinkEvents

  const RECORD_VERSION := 1

  // ---------- telemetry ----------

  function TelemetryEntry(r: RecordedTelemetryRecord): TimelineEntry {
    match Codec.DecodePacket(r.packet)
    case Failure(reason) =>
      TimelineEntry(TelemetryLane, r.recordIndex, TelemetryRejected, PacketRejected, Some(r.receivedAt), None,
        None, None, None, Reason(reason), None)
    case Success(p) =>
      TimelineEntry(TelemetryLane, r.recordIndex, TelemetryPacketEntry, PacketDecoded, Some(r.receivedAt), None,
        Some(p.sequence), None, Some(p.timestampMs), Readings(p), None)
  }

  function TelemetryTimeline(records: seq<RecordedTelemetryRecord>): (r: seq<TimelineEntry>)
    ensures |r| == |records| && forall k :: 0 <= k < |r| ==> r[k] == TelemetryEntry(records[k])
  {
    seq(|records|, k requires 0 <= k < |records| => TelemetryEntry(records[k]))
  }

  function Rejection(w: Wording, index: int, reason: Codec.ProtocolError): Diagnostic {
    Diagnostic(TelemetryPacketRejected, Warning, w(Rejected(index, reason)), Some(TelemetryLane), Some(index), None, [])
  }

  function Rejections(w: Wording, records: seq<RecordedTelemetryRecord>): seq<Diagnostic> {
    if records == [] then []
    else
      var last := records[|records| - 1];
      var decoded := Codec.DecodePacket(last.packet);
      Rejections(w, records[..|records| - 1])
      + (if decoded.Failure? then [Rejection(w, last.recordIndex, decoded.error)] else [])
  }

  function SightingsOf(records: seq<RecordedTelemetryRecord>): seq<Sighting> {
    Sightings(DecodedRecords(records))
  }

  /** What a lane says about its end: nothing when it is closed by a summary. */
  function EndNote(w: Wording, lane: EvidenceLane, count: nat, closed: bool): seq<Diagnostic> {
    if count == 0 then [Diagnostic(SourceEmpty, Warning, w(EmptySource(lane)), Some(lane), None, None, [])]
    else if closed then []
    else [Diagnostic(SourceSummaryMissing, Warning, w(NoSummary(lane)), Some(lane), None, None, [])]
  }

  function TelemetryDiagnostics(w: Wording, records: seq<RecordedTelemetryRecord>): seq<Diagnostic> {
    Rejections(w, records) + DuplicateDiagnostics(w, SightingsOf(records)) + GapDiagnostics(w, SightingsOf(records))
    + EndNote(w, TelemetryLane, |records|, true)
  }

  function Column(sightings: seq<Sighting>): (xs: seq<nat>)
    ensures |xs| == |sightings| && forall k :: 0 <= k < |xs| ==> xs[k] == sightings[k].index
  {
    seq(|sightings|, k requires 0 <= k < |sightings| => sightings[k].index)
  }

  lemma {:induction false} FewerDecoded(records: seq<RecordedTelemetryRecord>)
    ensures |DecodedRecords(records)| <= |records|
  {
    hide Codec.DecodePacket;
    if records == [] {
    } else {
      FewerDecoded(records[..|records| - 1]);
    }
  }

  function TelemetrySummary(name: string, records: seq<RecordedTelemetryRecord>): LaneSummary {
    var s := SightingsOf(records);
    FewerDecoded(records);
    LaneSummary(
      SourceDescriptor(TelemetryLane, name, |records|, if records == [] then Incomplete else Unknown,
        Some(RECORD_VERSION), None),
      false,
      TelemetryCounters(|records|, |s|, |records| - |s|, GapCount(Numbers(s)), |s| - |DistinctSequences(s)|),
      NoMetadata)
  }

  /** The loop over the rows: entries, rejections, and the rows that decode. */
  method ScanTelemetry(w: Wording, records: seq<RecordedTelemetryRecord>)
    returns (timeline: seq<TimelineEntry>, diagnostics: seq<Diagnostic>, decoded: seq<Sighting>, rejected: nat)
    ensures timeline == TelemetryTimeline(records)
    ensures diagnostics == Rejections(w, records)
    ensures decoded == SightingsOf(records)
    ensures rejected == |records| - |DecodedRecords(records)|
  {
    hide Codec.DecodePacket;
    timeline, diagnostics, decoded, rejected := [], [], [], 0;
    for i := 0 to |records|
      invariant timeline == TelemetryTimeline(records[..i])
      invariant diagnostics == Rejections(w, records[..i])
      invariant decoded == SightingsOf(records[..i])
      invariant rejected == i - |decoded|
    {
      var record := records[i];
      assert records[..i + 1][..i] == records[..i];
      var packet := Codec.DecodePacket(record.packet);
      if packet.Failure? {
        rejected := rejected + 1;
        timeline := timeline + [
          TimelineEntry(TelemetryLane, record.recordIndex, TelemetryRejected, PacketRejected, Some(record.receivedAt),
            None, None, None, None, Reason(packet.error), None)];
        diagnostics := diagnostics + [Rejection(w, record.recordIndex, packet.error)];
        continue;
      }
      var p := packet.value;
      decoded := decoded + [Sighting(record.recordIndex, p.sequence)];
      timeline := timeline + [
        TimelineEntry(TelemetryLane, record.recordIndex, TelemetryPacketEntry, PacketDecoded, Some(record.receivedAt),
          None, Some(p.sequence), None, Some(p.timestampMs), Readings(p), None)];
    }
    assert records[..|records|] == records;
  }

  method NormalizeTelemetry(w: Wording, name: string, records: seq<RecordedTelemetryRecord>)
    returns (summary: LaneSummary, timeline: seq<TimelineEntry>, diagnostics: seq<Diagnostic>, decoded: seq<Sighting>)
    ensures summary == TelemetrySummary(name, records)
    ensures timeline == TelemetryTimeline(records)
    ensures diagnostics == TelemetryDiagnostics(w, records)
    ensures decoded == SightingsOf(records)
  {
    hide Rejections, DuplicateDiagnostics, GapDiagnostics, DistinctSequences, GapCount, TelemetryTimeline;
    var rejections, rejected;
    timeline, rejections, decoded, rejected := ScanTelemetry(w, records);
    var sequenceDiagnostics, gaps, duplicates := TelemetrySequenceDiagnostics(w, decoded);
    diagnostics := rejections + sequenceDiagnostics;
    if records == [] {
      diagnostics := diagnostics + [
        Diagnostic(SourceEmpty, Warning, w(EmptySource(TelemetryLane)), Some(TelemetryLane), None, None, [])];
    }
    summary := LaneSummary(
      SourceDescriptor(TelemetryLane, name, |records|,
        ClassifySourceCompleteness(TelemetryLane, |records|, false).value, Some(RECORD_VERSION), None),
      false, TelemetryCounters(|records|, |decoded|, rejected, gaps, duplicates), NoMetadata);
  }

  // ---------- alarms ----------

  /**
   * The scan of the decoded sequences, its positions translated to original row indices: the result
   * names exactly the rows that carry the alarm's sequence.
   */
  method TranslateCorrelation(decoded: seq<Sighting>, sequence: int)
    returns (r: Result<CorrelationDecision, CorrelationError>)
    ensures r.Failure? <==>
      !Codec.Unsigned32(sequence) || exists k :: 0 <= k < |decoded| && !Codec.Unsigned32(decoded[k].sequence)
    ensures r.Failure? ==> r.error == SequenceOutOfRange
    ensures r.Success? ==> r.value == DecisionFor(IndicesWith(decoded, sequence))
  {
    var sequences, indices := Numbers(decoded), Column(decoded);
    r := ClassifyTelemetryAlarmMatch(sequences, sequence);
    if r.Failure? || r.value.candidates == [] {
      ScanAgreesWithIndex(decoded, sequence);
      assert forall k :: 0 <= k < |decoded| ==> decoded[k].sequence == sequences[k];
      return;
    }
    ScanAgreesWithIndex(decoded, sequence);
    var candidates := r.value.candidates;
    var translated := seq(|candidates|, k requires 0 <= k < |candidates| && candidates[k] < |indices| =>
      indices[candidates[k]]);
    assert translated == IndicesWith(decoded, sequence);
    r := Success(CorrelationDecision(r.value.kind, r.value.basis, translated));
  }

  predicate Alarmed(e: AlarmEvents.AlarmEvent) {
    AlarmEvents.IsTransition(e.eventType) && e.packetSequence.Some?
  }

  function AlarmEntry(decoded: seq<Sighting>, e: AlarmEvents.AlarmEvent): TimelineEntry
    requires Alarmed(e)
  {
    TimelineEntry(AlarmLane, e.eventIndex, AlarmTransitionEntry, AlarmType(e.eventType), None, Some(e.elapsedNs),
      e.packetSequence, None, None, OfAlarm(e.attributes),
      Some(DecisionFor(IndicesWith(decoded, e.packetSequence.value))))
  }

  function AlarmTimeline(decoded: seq<Sighting>, events: seq<AlarmEvents.AlarmEvent>): seq<TimelineEntry> {
    if events == [] then []
    else
      var last := events[|events| - 1];
      AlarmTimeline(decoded, events[..|events| - 1]) + (if Alarmed(last) then [AlarmEntry(decoded, last)] else [])
  }

  function AlarmFinding(w: Wording, decoded: seq<Sighting>, e: AlarmEvents.AlarmEvent): seq<Diagnostic>
    requires Alarmed(e)
  {
    var q := e.packetSequence.value;
    var candidates := IndicesWith(decoded, q);
    if |candidates| == 0 then [
      Diagnostic(AlarmCorrelationImpossible, Warning, w(ImpossibleAlarm(e.eventIndex, q)),
        Some(AlarmLane), Some(e.eventIndex), None, [])]
    else if |candidates| == 1 then []
    else [
      Diagnostic(AlarmCorrelationAmbiguous, Error, w(AmbiguousAlarm(e.eventIndex, q)),
        Some(AlarmLane), Some(e.eventIndex), Some(TelemetryLane), candidates)]
  }

  function AlarmFindings(w: Wording, decoded: seq<Sighting>, events: seq<AlarmEvents.AlarmEvent>): seq<Diagnostic> {
    if events == [] then []
    else
      var last := events[|events| - 1];
      AlarmFindings(w, decoded, events[..|events| - 1])
      + (if Alarmed(last) then AlarmFinding(w, decoded, last) else [])
  }

  function AlarmDiagnostics(w: Wording, decoded: seq<Sighting>, events: seq<AlarmEvents.AlarmEvent>): seq<Diagnostic> {
    AlarmFindings(w, decoded, events) + EndNote(w, AlarmLane, |events|, AlarmEvents.HasSummary(events))
  }

  function CompletenessOf(count: nat, closed: bool): SourceCompleteness {
    if count > 0 && closed then Complete else Incomplete
  }

  function AlarmMetadataOf(events: seq<AlarmEvents.AlarmEvent>): LaneMetadata {
    if events != [] && events[0].eventType == AlarmEvents.RunMetadata && events[0].attributes.Metadata?
    then AlarmMetadata(events[0].attributes.metadata)
    else NoMetadata
  }

  function AlarmSummary(name: string, events: seq<AlarmEvents.AlarmEvent>): LaneSummary {
    var closed := AlarmEvents.HasSummary(events);
    LaneSummary(
      SourceDescriptor(AlarmLane, name, |events|, CompletenessOf(|events|, closed),
        if events == [] then None else Some(events[0].schemaVersion),
        if events == [] then None else Some(events[0].sessionId)),
      closed, AlarmCounters(AlarmEvents.StatisticsOf(events)), AlarmMetadataOf(events))
  }

  ghost predicate SequencesInRange(decoded: seq<Sighting>) {
    forall k :: 0 <= k < |decoded| ==> Codec.Unsigned32(decoded[k].sequence)
  }

  ghost predicate AlarmsInRange(events: seq<AlarmEvents.AlarmEvent>) {
    forall k {:trigger events[k]} :: 0 <= k < |events| ==> AlarmEvents.EventShape(events[k])
  }

  method ScanAlarms(w: Wording, events: seq<AlarmEvents.AlarmEvent>, decoded: seq<Sighting>)
    returns (timeline: seq<TimelineEntry>, diagnostics: seq<Diagnostic>)
    requires AlarmsInRange(events) && SequencesInRange(decoded)
    ensures timeline == AlarmTimeline(decoded, events)
    ensures diagnostics == AlarmFindings(w, decoded, events)
  {
    hide IndicesWith;
    timeline, diagnostics := [], [];
    for i := 0 to |events|
      invariant timeline == AlarmTimeline(decoded, events[..i])
      invariant diagnostics == AlarmFindings(w, decoded, events[..i])
    {
      var event := events[i];
      assert events[..i + 1][..i] == events[..i];
      if !AlarmEvents.IsTransition(event.eventType) {
        continue;
      }
      var sequence := event.packetSequence.value;
      var translated := TranslateCorrelation(decoded, sequence);
      var correlation := translated.value;
      timeline := timeline + [
        TimelineEntry(AlarmLane, event.eventIndex, AlarmTransitionEntry, AlarmType(event.eventType), None,
          Some(event.elapsedNs), event.packetSequence, None, None, OfAlarm(event.attributes), Some(correlation))];
      if correlation.kind == Ambiguous {
        diagnostics := diagnostics + [
          Diagnostic(AlarmCorrelationAmbiguous, Error, w(AmbiguousAlarm(event.eventIndex, sequence)),
            Some(AlarmLane), Some(event.eventIndex), Some(TelemetryLane), correlation.candidates)];
      } else if correlation.kind == Impossible {
        diagnostics := diagnostics + [
          Diagnostic(AlarmCorrelationImpossible, Warning, w(ImpossibleAlarm(event.eventIndex, sequence)),
            Some(AlarmLane), Some(event.eventIndex), None, [])];
      }
    }
    assert events[..|events|] == events;
  }

  method NormalizeAlarm(w: Wording, name: string, events: seq<AlarmEvents.AlarmEvent>, decoded: seq<Sighting>)
    returns (summary: LaneSummary, timeline: seq<TimelineEntry>, diagnostics: seq<Diagnostic>)
    requires AlarmsInRange(events) && SequencesInRange(decoded)
    ensures summary == AlarmSummary(name, events)
    ensures timeline == AlarmTimeline(decoded, events)
    ensures diagnostics == AlarmDiagnostics(w, decoded, events)
  {
    timeline, diagnostics := ScanAlarms(w, events, decoded);
    var summaryPresent := AlarmEvents.HasSummary(events);
    diagnostics := diagnostics + EndNote(w, AlarmLane, |events|, summaryPresent);
    summary := LaneSummary(
      SourceDescriptor(AlarmLane, name, |events|,
        ClassifySourceCompleteness(AlarmLane, |events|, summaryPresent).value,
        if events == [] then None else Some(events[0].schemaVersion),
        if events == [] then None else Some(events[0].sessionId)),
      summaryPresent, AlarmCounters(AlarmEvents.StatisticsOf(events)), AlarmMetadataOf(events));
  }

  // ---------- the link ----------

  predicate IsContext(t: LinkEvents.LinkEventType) { t == LinkEvents.RunMetadata || t == LinkEvents.RunSummary }

  function LinkEntry(e: LinkEvents.LinkEvent): TimelineEntry {
    TimelineEntry(LinkLane, e.eventIndex, LinkEventEntry, LinkType(e.eventType), None, Some(e.elapsedNs),
      None, e.packetIndex, None, OfLink(e.attributes), None)
  }

  function LinkTimeline(events: seq<LinkEvents.LinkEvent>): seq<TimelineEntry> {
    if events == [] then []
    else
      var last := events[|events| - 1];
      LinkTimeline(events[..|events| - 1]) + (if IsContext(last.eventType) then [] else [LinkEntry(last)])
  }

  function LinkFinding(w: Wording, e: LinkEvents.LinkEvent): Diagnostic {
    Diagnostic(LinkCorruptionObserved, Warning, w(Corruption(e.packetIndex)), Some(LinkLane), Some(e.eventIndex),
      None, [])
  }

  function LinkFindings(w: Wording, events: seq<LinkEvents.LinkEvent>): seq<Diagnostic> {
    if events == [] then []
    else
      var last := events[|events| - 1];
      LinkFindings(w, events[..|events| - 1])
      + (if last.eventType == LinkEvents.PacketCorrupted then [LinkFinding(w, last)] else [])
  }

  predicate LinkHasSummary(events: seq<LinkEvents.LinkEvent>) {
    events != [] && events[|events| - 1].eventType == LinkEvents.RunSummary
  }

  function LinkDiagnostics(w: Wording, events: seq<LinkEvents.LinkEvent>): seq<Diagnostic> {
    LinkFindings(w, events) + EndNote(w, LinkLane, |events|, LinkHasSummary(events))
  }

  function LinkMetadataOf(events: seq<LinkEvents.LinkEvent>): LaneMetadata {
    if events != [] && events[0].schemaVersion != 1 && events[0].attributes.Metadata?
    then LinkMetadata(events[0].attributes.metadata)
    else NoMetadata
  }

  function LinkSummary(name: string, events: seq<LinkEvents.LinkEvent>): LaneSummary {
    var closed := LinkHasSummary(events);
    LaneSummary(
      SourceDescriptor(LinkLane, name, |events|, CompletenessOf(|events|, closed),
        if events == [] then None else Some(events[0].schemaVersion),
        if events == [] then None else Some(events[0].sessionId)),
      closed, LinkCounters(LinkEvents.StatisticsOf(events)), LinkMetadataOf(events))
  }

  method NormalizeLink(w: Wording, name: string, events: seq<LinkEvents.LinkEvent>)
    returns (summary: LaneSummary, timeline: seq<TimelineEntry>, diagnostics: seq<Diagnostic>)
    ensures summary == LinkSummary(name, events)
    ensures timeline == LinkTimeline(events)
    ensures diagnostics == LinkDiagnostics(w, events)
  {
    timeline, diagnostics := [], [];
    for i := 0 to |events|
      invariant timeline == LinkTimeline(events[..i])
      invariant diagnostics == LinkFindings(w, events[..i])
    {
      var event := events[i];
      assert events[..i + 1][..i] == events[..i];
      if IsContext(event.eventType) {
        continue;
      }
      timeline := timeline + [LinkEntry(event)];
      if event.eventType == LinkEvents.PacketCorrupted {
        diagnostics := diagnostics + [LinkFinding(w, event)];
      }
    }
    assert events[..|events|] == events;
    var summaryPresent := LinkHasSummary(events);
    diagnostics := diagnostics + EndNote(w, LinkLane, |events|, summaryPresent);
    var statistics := LinkEvents.StatisticsFromEvents(events);
    summary := LaneSummary(
      SourceDescriptor(LinkLane, name, |events|,
        ClassifySourceCompleteness(LinkLane, |events|, summaryPresent).value,
        if events == [] then None else Some(events[0].schemaVersion),
        if events == [] then None else Some(events[0].sessionId)),
      summaryPresent, LinkCounters(statistics), LinkMetadataOf(events));
  }

  // ---------- the session ----------

  datatype Source<T> = Source(name: string, records: seq<T>)

  /** Selected evidence; a lane may be missing. */
  datatype Evidence = Evidence(
    telemetry: Option<Source<RecordedTelemetryRecord>>,
    alarm: Option<Source<AlarmEvents.AlarmEvent>>,
    link: Option<Source<LinkEvents.LinkEvent>>)

  /** A link log that ends with a summary has been checked against it. */
  ghost predicate SummaryChecked(events: seq<LinkEvents.LinkEvent>) {
    LinkHasSummary(events) ==> LinkEvents.ValidateRunSummary(events).Success?
  }

  /** No file has a NUL in its name; nothing else is asked of a name by loading. */
  predicate Openable(name: string) { '\0' !in name }

  /** Evidence as the strict loaders leave it. */
  ghost predicate Loaded(e: Evidence) {
    && (e.telemetry.Some? ==> Openable(e.telemetry.value.name) && Numbered(e.telemetry.value.records))
    && (e.alarm.Some? ==> Openable(e.alarm.value.name) && AlarmEvents.AcceptedLog(e.alarm.value.records))
    && (e.link.Some? ==>
      && Openable(e.link.value.name)
      && LinkEvents.AcceptedLog(e.link.value.records)
      && SummaryChecked(e.link.value.records))
  }

  const NOT_PROVIDED := "<not provided>"

  function NoCounters(lane: EvidenceLane): Counters {
    match lane
    case TelemetryLane => TelemetryCounters(0, 0, 0, 0, 0)
    case AlarmLane => AlarmCounters(AlarmEvents.NO_TRANSITIONS)
    case LinkLane => LinkCounters(LinkEvents.ZERO_STATISTICS)
  }

  function MissingSummary(lane: EvidenceLane): LaneSummary {
    LaneSummary(SourceDescriptor(lane, NOT_PROVIDED, 0, Incomplete, None, None), false, NoCounters(lane), NoMetadata)
  }

  function MissingNote(w: Wording, lane: EvidenceLane): Diagnostic {
    Diagnostic(SourceNotProvided, Warning, w(NotProvided(lane)), Some(lane), None, None, [])
  }

  function DecodedIn(e: Evidence): seq<Sighting> {
    if e.telemetry.Some? then SightingsOf(e.telemetry.value.records) else []
  }

  function Summaries(e: Evidence): seq<LaneSummary> {
    [ if e.telemetry.Some? then TelemetrySummary(e.telemetry.value.name, e.telemetry.value.records)
      else MissingSummary(TelemetryLane),
      if e.alarm.Some? then AlarmSummary(e.alarm.value.name, e.alarm.value.records) else MissingSummary(AlarmLane),
      if e.link.Some? then LinkSummary(e.link.value.name, e.link.value.records) else MissingSummary(LinkLane)]
  }

  /** All entries, telemetry first, then alarms, then the link. */
  function Timeline(e: Evidence): seq<TimelineEntry> {
    (if e.telemetry.Some? then TelemetryTimeline(e.telemetry.value.records) else [])
    + (if e.alarm.Some? then AlarmTimeline(DecodedIn(e), e.alarm.value.records) else [])
    + (if e.link.Some? then LinkTimeline(e.link.value.records) else [])
  }

  function Findings(w: Wording, e: Evidence): seq<Diagnostic> {
    (if e.telemetry.Some? then TelemetryDiagnostics(w, e.telemetry.value.records) else [MissingNote(w, TelemetryLane)])
    + (if e.alarm.Some? then AlarmDiagnostics(w, DecodedIn(e), e.alarm.value.records) else [MissingNote(w, AlarmLane)])
    + (if e.link.Some? then LinkDiagnostics(w, e.link.value.records) else [MissingNote(w, LinkLane)])
  }

  function Session(w: Wording, e: Evidence): NormalizedSession {
    NormalizedSession(Summaries(e), SortBy(EntryKey, Timeline(e)), SortBy(DiagnosticKey, Findings(w, e)))
  }
}
