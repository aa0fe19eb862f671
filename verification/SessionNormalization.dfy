/** When normalization succeeds, what its timeline is, and the inspector as a whole. */
module SessionNormalization {
  import opened Wrappers
  import opened Correlation
  import opened Inspection
  import opened Ordering
  import opened SequenceInspection
  import opened SessionModels
  import opened SessionValidity
  import opened TelemetryRecording
  import AlarmEvents
  import Codec
  import LinkEvents
  import Texts

  // ---------- the timeline needs no sorting ----------

  /** Valid entries of one lane in ascending source order. */
  ghost predicate LaneRun(s: seq<TimelineEntry>, lane: EvidenceLane, bound: nat) {
    && (forall k :: 0 <= k < |s| ==> s[k].Valid() && s[k].lane == lane && 0 <= s[k].sourceIndex < bound)
    && forall j, k :: 0 <= j < k < |s| ==> s[j].sourceIndex < s[k].sourceIndex
  }

  lemma EmptyRun(lane: EvidenceLane, bound: nat)
    ensures LaneRun([], lane, bound)
  {
  }

  lemma RunAppend(s: seq<TimelineEntry>, e: TimelineEntry, lane: EvidenceLane, bound: nat)
    requires LaneRun(s, lane, bound) && e.Valid() && e.lane == lane && e.sourceIndex == bound
    ensures LaneRun(s + [e], lane, bound + 1)
  {
    hide TimelineEntry.Valid;
  }

  lemma RunWiden(s: seq<TimelineEntry>, lane: EvidenceLane, bound: nat, wider: nat)
    requires LaneRun(s, lane, bound) && bound <= wider
    ensures LaneRun(s, lane, wider)
  {
    hide TimelineEntry.Valid;
  }

  lemma TelemetryEntryValid(r: RecordedTelemetryRecord)
    ensures TelemetryEntry(r).Valid()
  {
    if Codec.DecodePacket(r.packet).Success? { DecodedPacketInRange(r.packet); }
  }

  lemma TelemetryRun(records: seq<RecordedTelemetryRecord>)
    requires Numbered(records)
    ensures LaneRun(TelemetryTimeline(records), TelemetryLane, |records|)
  {
    hide TimelineEntry.Valid, Codec.DecodePacket;
    forall k | 0 <= k < |records|
      ensures TelemetryTimeline(records)[k].Valid()
    {
      TelemetryEntryValid(records[k]);
    }
  }

  lemma AlarmEntryValid(s: seq<Sighting>, e: AlarmEvents.AlarmEvent)
    requires Rising(s) && AlarmEvents.EventShape(e) && Alarmed(e)
    ensures AlarmEntry(s, e).Valid()
  {
    hide IndicesWith, Texts.ValidText;
    IndicesRise(s, e.packetSequence.value);
  }

  lemma {:induction false} AlarmRun(s: seq<Sighting>, events: seq<AlarmEvents.AlarmEvent>)
    requires Rising(s) && AlarmsNumbered(events)
    ensures LaneRun(AlarmTimeline(s, events), AlarmLane, |events|)
  {
    hide TimelineEntry.Valid, LaneRun, Rising, AlarmEvents.EventShape;
    if events == [] {
      EmptyRun(AlarmLane, 0);
    } else {
      var init, last := events[..|events| - 1], events[|events| - 1];
      AlarmRun(s, init);
      RunWiden(AlarmTimeline(s, init), AlarmLane, |init|, |events|);
      if Alarmed(last) {
        AlarmEntryValid(s, last);
        RunAppend(AlarmTimeline(s, init), AlarmEntry(s, last), AlarmLane, |init|);
      } else {
        assert AlarmTimeline(s, init) + [] == AlarmTimeline(s, init);
      }
    }
  }

  lemma LinkEntryValid(e: LinkEvents.LinkEvent)
    requires LinkEvents.EventShape(e)
    ensures LinkEntry(e).Valid()
  {
  }

  lemma {:induction false} LinkRun(events: seq<LinkEvents.LinkEvent>)
    requires LinkNumbered(events)
    ensures LaneRun(LinkTimeline(events), LinkLane, |events|)
  {
    hide TimelineEntry.Valid, LaneRun, LinkEvents.EventShape;
    if events == [] {
      EmptyRun(LinkLane, 0);
    } else {
      var init, last := events[..|events| - 1], events[|events| - 1];
      LinkRun(init);
      RunWiden(LinkTimeline(init), LinkLane, |init|, |events|);
      if IsContext(last.eventType) {
        assert LinkTimeline(init) + [] == LinkTimeline(init);
      } else {
        LinkEntryValid(last);
        RunAppend(LinkTimeline(init), LinkEntry(last), LinkLane, |init|);
      }
    }
  }

  /** Keys strictly increase. */
  ghost predicate Strict(s: seq<TimelineEntry>) {
    forall j, k :: 0 <= j < k < |s| ==> Less(EntryKey(s[j]), EntryKey(s[k]))
  }

  lemma StrictIsSorted(s: seq<TimelineEntry>)
    requires Strict(s)
    ensures SortedBy(EntryKey, s)
  {
    hide Less;
    forall j, k | 0 <= j < k < |s|
      ensures InOrder(EntryKey, s, j, k)
    {
      LessIsTotal(EntryKey(s[j]), EntryKey(s[k]));
    }
  }

  lemma LanesInOrder(
    a: seq<TimelineEntry>, b: seq<TimelineEntry>, c: seq<TimelineEntry>, x: nat, y: nat, z: nat)
    requires LaneRun(a, TelemetryLane, x) && LaneRun(b, AlarmLane, y) && LaneRun(c, LinkLane, z)
    ensures Strict(a + b + c)
    ensures forall e :: e in a + b + c ==> e.Valid()
  {
    hide TimelineEntry.Valid, Less;
    var all := a + b + c;
    forall j, k | 0 <= j < k < |all|
      ensures Less(EntryKey(all[j]), EntryKey(all[k]))
    {
      EntryOrder(all[j], all[k]);
    }
  }

  /** The concatenated lanes are already in presentation order, with distinct keys. */
  lemma TimelineInOrder(e: Evidence)
    requires Loaded(e)
    ensures Strict(Timeline(e)) && SortBy(EntryKey, Timeline(e)) == Timeline(e)
    ensures forall t :: t in Timeline(e) ==> t.Valid()
  {
    hide LaneRun, TimelineEntry.Valid, AlarmEvents.AcceptedLog, LinkEvents.AcceptedLog;
    EmptyRun(TelemetryLane, 0);
    EmptyRun(AlarmLane, 0);
    EmptyRun(LinkLane, 0);
    var x, y, z := 0, 0, 0;
    if e.telemetry.Some? {
      TelemetryRun(e.telemetry.value.records);
      DecodedRise(e.telemetry.value.records);
      x := |e.telemetry.value.records|;
    }
    if e.alarm.Some? {
      AcceptedAlarmsNumbered(e.alarm.value.records);
      AlarmRun(DecodedIn(e), e.alarm.value.records);
      y := |e.alarm.value.records|;
    }
    if e.link.Some? {
      AcceptedLinkNumbered(e.link.value.records);
      LinkRun(e.link.value.records);
      z := |e.link.value.records|;
    }
    LanesInOrder(
      if e.telemetry.Some? then TelemetryTimeline(e.telemetry.value.records) else [],
      if e.alarm.Some? then AlarmTimeline(DecodedIn(e), e.alarm.value.records) else [],
      if e.link.Some? then LinkTimeline(e.link.value.records) else [], x, y, z);
    StrictIsSorted(Timeline(e));
    SortByFixes(EntryKey, Timeline(e));
  }

  // ---------- when normalization succeeds ----------

  /** A link log whose session identifier holds a NUL, which the link loader accepts. */
  predicate NulSession(e: Evidence) {
    e.link.Some? && e.link.value.records != [] && '\0' in e.link.value.records[0].sessionId
  }

  lemma NotProvidedIsText()
    ensures Texts.ValidText(NOT_PROVIDED)
  {
    assert NOT_PROVIDED[0] == '<';
  }

  /** Every source that was given has a name with something in it, which the loaders do not ask for. */
  predicate NamesNotBlank(e: Evidence) {
    && (e.telemetry.Some? ==> Texts.NonBlank(e.telemetry.value.name))
    && (e.alarm.Some? ==> Texts.NonBlank(e.alarm.value.name))
    && (e.link.Some? ==> Texts.NonBlank(e.link.value.name))
  }

  lemma TelemetrySummaryValid(e: Evidence)
    requires Loaded(e)
    ensures Summaries(e)[0].source.Valid() <==> (e.telemetry.Some? ==> Texts.NonBlank(e.telemetry.value.name))
    ensures Summaries(e)[0].Valid() <==> Summaries(e)[0].source.Valid()
    ensures Summaries(e)[0].source.lane == TelemetryLane
  {
    hide Texts.NonBlank, DistinctSequences, GapCount, AlarmEvents.AcceptedLog, LinkEvents.AcceptedLog;
    NotProvidedIsText();
  }

  lemma AlarmSummaryValid(e: Evidence)
    requires Loaded(e)
    ensures Summaries(e)[1].source.Valid() <==> (e.alarm.Some? ==> Texts.NonBlank(e.alarm.value.name))
    ensures Summaries(e)[1].Valid() <==> Summaries(e)[1].source.Valid()
    ensures Summaries(e)[1].source.lane == AlarmLane
  {
    hide Texts.NonBlank, LinkEvents.AcceptedLog, TelemetrySummary, LinkSummary;
    NotProvidedIsText();
    if e.alarm.Some? && e.alarm.value.records != [] {
      assert AlarmEvents.EventFits(e.alarm.value.records, 0);
    }
  }

  lemma LinkSummaryValid(e: Evidence)
    requires Loaded(e)
    ensures Summaries(e)[2].source.Valid() <==>
      (e.link.Some? ==> Texts.NonBlank(e.link.value.name)) && !NulSession(e)
    ensures Summaries(e)[2].Valid() <==> Summaries(e)[2].source.Valid()
    ensures Summaries(e)[2].source.lane == LinkLane
  {
    hide AlarmEvents.AcceptedLog, TelemetrySummary, AlarmSummary, Texts.NonBlank;
    NotProvidedIsText();
    if e.link.Some? && e.link.value.records != [] {
      assert LinkEvents.EventFits(e.link.value.records, 0);
    }
  }

  lemma SummariesValid(e: Evidence)
    requires Loaded(e)
    ensures Lanes(Summaries(e)) == LANE_PRECEDENCE
    ensures (forall k :: 0 <= k < 3 ==> Summaries(e)[k].Valid()) <==> !NulSession(e) && NamesNotBlank(e)
  {
    hide LaneSummary.Valid, TelemetrySummary, AlarmSummary, LinkSummary, MissingSummary, Loaded, Texts.NonBlank;
    TelemetrySummaryValid(e);
    AlarmSummaryValid(e);
    LinkSummaryValid(e);
  }

  /**
   * Every record that normalization builds passes its constructor's checks, with two exceptions: a
   * source with a blank name, and a link session identifier with a NUL in it.
   */
  lemma NormalizationSucceeds(w: Wording, e: Evidence)
    requires Speaks(w) && Loaded(e)
    ensures Session(w, e).Valid() <==> !NulSession(e) && NamesNotBlank(e)
    ensures Session(w, e).timeline == Timeline(e)
    ensures multiset(Session(w, e).diagnostics) == multiset(Findings(w, e))
  {
    hide Loaded, Summaries, Timeline, Findings, TimelineEntry.Valid, Diagnostic.Valid, LaneSummary.Valid, SortBy,
      NamesNotBlank;
    var s := Session(w, e);
    SummariesValid(e);
    TimelineInOrder(e);
    SortBySorts(EntryKey, Timeline(e));
    SortBySorts(DiagnosticKey, Findings(w, e));
    FindingsDistinct(w, e);
    forall d | d in s.diagnostics
      ensures d.Valid()
    {
      assert d in multiset(s.diagnostics);
      assert d in Findings(w, e);
    }
    assert |s.sources| == 3 && Lanes(s.sources) == LANE_PRECEDENCE;
  }

  /** A version 1 link log of one event, whose session identifier ends in a NUL. */
  const NUL_LOG: seq<LinkEvents.LinkEvent> := [
    LinkEvents.LinkEvent("a\0", 0, 0, LinkEvents.PacketReceived, Some(0), LinkEvents.Fields(map[]), 1)]

  /** First exception: the strict loader accepts this log, and its session is refused. */
  lemma NulSessionIsRefused(w: Wording)
    requires Speaks(w)
    ensures LinkEvents.AcceptedLog(NUL_LOG)
    ensures var e := Evidence(None, None, Some(Source("link.jsonl", NUL_LOG)));
      Loaded(e) && NamesNotBlank(e) && !Session(w, e).Valid()
  {
    hide Session, Timeline, Findings, NormalizedSession.Valid, LinkEvents.ValidateRunSummary, AlarmEvents.AcceptedLog;
    var id, name := "a\0", "link.jsonl";
    assert id[0] == 'a' && id[1] == '\0' && name[0] == 'l';
    assert LinkEvents.EventShape(NUL_LOG[0]);
    assert LinkEvents.EventFits(NUL_LOG, 0);
    NormalizationSucceeds(w, Evidence(None, None, Some(Source(name, NUL_LOG))));
  }

  /** Second exception: an empty recording in a file called by a single space loads, and its session is refused. */
  lemma BlankNameIsRefused(w: Wording)
    requires Speaks(w)
    ensures var e := Evidence(Some(Source(" ", [])), None, None);
      Loaded(e) && !NulSession(e) && !Session(w, e).Valid()
  {
    hide Session;
    NormalizationSucceeds(w, Evidence(Some(Source(" ", [])), None, None));
  }

  lemma {:induction false} OnceEach(s: seq<Diagnostic>, d: Diagnostic)
    requires DistinctTags(s)
    ensures multiset(s)[d] <= 1
  {
    if s == [] {
    } else {
      var init, last := s[..|s| - 1], s[|s| - 1];
      OnceEach(init, d);
      assert s == init + [last];
      if last == d {
        forall k | 0 <= k < |init|
          ensures init[k] != d
        {
          assert Tag(s[k]) != Tag(s[|s| - 1]);
        }
        assert d !in multiset(init);
      }
    }
  }

  /** No two diagnostics of a session are equal, and none is a truncation notice. */
  lemma DiagnosticsDistinct(w: Wording, e: Evidence)
    requires Speaks(w) && Loaded(e)
    ensures forall d :: multiset(Session(w, e).diagnostics)[d] <= 1
    ensures forall d :: d in Session(w, e).diagnostics ==> d.code != TimelineTruncated
  {
    hide Loaded, Findings, Diagnostic.Valid, SortBy, DiagnosticKey;
    SortBySorts(DiagnosticKey, Findings(w, e));
    FindingsDistinct(w, e);
    var s, f := Session(w, e).diagnostics, Findings(w, e);
    forall d
      ensures multiset(s)[d] <= 1
      ensures d in s ==> d.code != TimelineTruncated
    {
      OnceEach(f, d);
      assert d in s <==> d in multiset(s);
      assert d in f <==> d in multiset(f);
    }
  }

  datatype InspectionError =
    | NoSource
    | Malformed(lane: EvidenceLane)
    | InvalidName(lane: EvidenceLane)
    | InvalidSessionId

  /** The first constructor check that normalization of loaded evidence fails, if any. */
  function NormalizationError(e: Evidence): Option<InspectionError> {
    if e.telemetry.Some? && !Texts.NonBlank(e.telemetry.value.name) then Some(InvalidName(TelemetryLane))
    else if e.alarm.Some? && !Texts.NonBlank(e.alarm.value.name) then Some(InvalidName(AlarmLane))
    else if e.link.Some? && !Texts.NonBlank(e.link.value.name) then Some(InvalidName(LinkLane))
    else if NulSession(e) then Some(InvalidSessionId)
    else None
  }

  /** The lane named is the first with a blank name; the identifier is blamed only when no name is. */
  lemma NormalizationErrorMeans(e: Evidence)
    ensures NormalizationError(e) == None <==> NamesNotBlank(e) && !NulSession(e)
    ensures NormalizationError(e) == Some(InvalidName(TelemetryLane)) <==>
      e.telemetry.Some? && !Texts.NonBlank(e.telemetry.value.name)
    ensures NormalizationError(e) == Some(InvalidName(AlarmLane)) <==>
      && e.alarm.Some? && !Texts.NonBlank(e.alarm.value.name)
      && (e.telemetry.Some? ==> Texts.NonBlank(e.telemetry.value.name))
    ensures NormalizationError(e) == Some(InvalidName(LinkLane)) <==>
      && e.link.Some? && !Texts.NonBlank(e.link.value.name)
      && (e.telemetry.Some? ==> Texts.NonBlank(e.telemetry.value.name))
      && (e.alarm.Some? ==> Texts.NonBlank(e.alarm.value.name))
    ensures NormalizationError(e) == Some(InvalidSessionId) <==> NamesNotBlank(e) && NulSession(e)
  {
    hide Texts.NonBlank;
  }

  /** Normalization of loaded evidence. */
  method NormalizeLoadedSession(w: Wording, e: Evidence) returns (r: Result<NormalizedSession, InspectionError>)
    requires Speaks(w) && Loaded(e)
    ensures r.Failure? <==> NulSession(e) || !NamesNotBlank(e)
    ensures r.Failure? ==> Some(r.error) == NormalizationError(e)
    ensures r.Success? ==> r.value == Session(w, e) && r.value.Valid()
  {
    hide SortBy, TelemetrySummary, AlarmSummary, LinkSummary, TelemetryDiagnostics, AlarmDiagnostics,
      LinkDiagnostics, TelemetryTimeline, AlarmTimeline, LinkTimeline, SourceDescriptor.Valid,
      NormalizedSession.Valid, Speaks, AlarmEvents.AcceptedLog, LinkEvents.AcceptedLog, Texts.NonBlank;
    NormalizationSucceeds(w, e);
    var telemetrySummary, telemetryTimeline := MissingSummary(TelemetryLane), [];
    var telemetryDiagnostics, decoded := [MissingNote(w, TelemetryLane)], [];
    if e.telemetry.Some? {
      telemetrySummary, telemetryTimeline, telemetryDiagnostics, decoded :=
        NormalizeTelemetry(w, e.telemetry.value.name, e.telemetry.value.records);
      DecodedRise(e.telemetry.value.records);
    }
    TelemetrySummaryValid(e);
    if !telemetrySummary.source.Valid() {
      return Failure(InvalidName(TelemetryLane));
    }
    var alarmSummary, alarmTimeline := MissingSummary(AlarmLane), [];
    var alarmDiagnostics := [MissingNote(w, AlarmLane)];
    if e.alarm.Some? {
      AcceptedAlarmsNumbered(e.alarm.value.records);
      alarmSummary, alarmTimeline, alarmDiagnostics :=
        NormalizeAlarm(w, e.alarm.value.name, e.alarm.value.records, decoded);
    }
    AlarmSummaryValid(e);
    if !alarmSummary.source.Valid() {
      return Failure(InvalidName(AlarmLane));
    }
    var linkSummary, linkTimeline := MissingSummary(LinkLane), [];
    var linkDiagnostics := [MissingNote(w, LinkLane)];
    if e.link.Some? {
      linkSummary, linkTimeline, linkDiagnostics := NormalizeLink(w, e.link.value.name, e.link.value.records);
    }
    LinkSummaryValid(e);
    if !linkSummary.source.Valid() {
      return Failure(
        if e.link.Some? && !Texts.NonBlank(e.link.value.name) then InvalidName(LinkLane) else InvalidSessionId);
    }
    var timeline := SortBy(EntryKey, telemetryTimeline + alarmTimeline + linkTimeline);
    var diagnostics := SortBy(DiagnosticKey, telemetryDiagnostics + alarmDiagnostics + linkDiagnostics);
    return Success(NormalizedSession([telemetrySummary, alarmSummary, linkSummary], timeline, diagnostics));
  }

  /** Strict loading of the alarm log. */
  method LoadAlarm(source: Source<AlarmEvents.AlarmEvent>) returns (ok: bool)
    ensures ok <==> Openable(source.name) && AlarmEvents.AcceptedLog(source.records)
  {
    if !Openable(source.name) {
      return false;
    }
    var loaded := AlarmEvents.LoadAlarmEvents(source.records);
    return loaded.Success?;
  }

  /** Strict loading of the link log, and the check of its summary if it has one. */
  method LoadLink(source: Source<LinkEvents.LinkEvent>) returns (ok: bool)
    ensures ok <==>
      Openable(source.name) && LinkEvents.AcceptedLog(source.records) && SummaryChecked(source.records)
  {
    hide LinkEvents.ValidateRunSummary, LinkEvents.AcceptedLog;
    if !Openable(source.name) {
      return false;
    }
    var loaded := LinkEvents.LoadLinkEvents(source.records);
    if loaded.Failure? {
      return false;
    }
    return !LinkHasSummary(source.records) || LinkEvents.ValidateRunSummary(source.records).Success?;
  }

  /** The first thing that inspection refuses, in the order telemetry, alarms, link: loading before normalizing. */
  ghost function InspectionFault(e: Evidence): Option<InspectionError> {
    if e.telemetry.None? && e.alarm.None? && e.link.None? then Some(NoSource)
    else if e.telemetry.Some? && !Openable(e.telemetry.value.name) then Some(Malformed(TelemetryLane))
    else if e.alarm.Some? &&
      !(Openable(e.alarm.value.name) && AlarmEvents.AcceptedLog(e.alarm.value.records)) then Some(Malformed(AlarmLane))
    else if e.link.Some? &&
      !(Openable(e.link.value.name) && LinkEvents.AcceptedLog(e.link.value.records)
        && SummaryChecked(e.link.value.records)) then Some(Malformed(LinkLane))
    else NormalizationError(e)
  }

  /** Strict loading, lane by lane, and then normalization. Loading numbers the telemetry rows. */
  method InspectSession(
    w: Wording, telemetry: Option<Source<RecordedTelemetryRecord>>, alarm: Option<Source<AlarmEvents.AlarmEvent>>,
    link: Option<Source<LinkEvents.LinkEvent>>)
    returns (r: Result<NormalizedSession, InspectionError>)
    requires Speaks(w)
    requires telemetry.Some? ==> Numbered(telemetry.value.records)
    ensures var e := Evidence(telemetry, alarm, link);
      && (r.Success? <==>
           (telemetry.Some? || alarm.Some? || link.Some?) && Loaded(e) && !NulSession(e) && NamesNotBlank(e))
      && (r.Success? ==> r.value == Session(w, e) && r.value.Valid())
      && (r.Failure? ==> Some(r.error) == InspectionFault(e))
  {
    hide Speaks, AlarmEvents.AcceptedLog, LinkEvents.AcceptedLog, Session, NamesNotBlank, NulSession, SummaryChecked;
    if telemetry.None? && alarm.None? && link.None? {
      return Failure(NoSource);
    }
    if telemetry.Some? && !Openable(telemetry.value.name) {
      return Failure(Malformed(TelemetryLane));
    }
    if alarm.Some? {
      var ok := LoadAlarm(alarm.value);
      if !ok {
        return Failure(Malformed(AlarmLane));
      }
    }
    if link.Some? {
      var ok := LoadLink(link.value);
      if !ok {
        return Failure(Malformed(LinkLane));
      }
    }
    r := NormalizeLoadedSession(w, Evidence(telemetry, alarm, link));
  }
}
