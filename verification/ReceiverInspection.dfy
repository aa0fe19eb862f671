/** What the inspector says of the two streams that one receiver run records. */
module ReceiverInspection {
  import opened Wrappers
  import opened Correlation
  import opened Inspection
  import opened Ordering
  import opened SequenceInspection
  import opened SessionModels
  import opened LossAccounting
  import opened SessionValidity
  import opened TelemetryRecording
  import opened Receiver
  import AlarmEvents
  import Alarms
  import Codec

  // ---------- candidates are original rows ----------

  lemma {:induction false} SightingListed(s: seq<Sighting>, k: nat)
    requires k < |s|
    ensures s[k].index in IndicesWith(s, s[k].sequence)
  {
    var n := |s| - 1;
    if k == n {
    } else {
      SightingListed(s[..n], k);
    }
  }

  /** Row `i` carries sequence `q`. */
  predicate Carries(records: seq<RecordedTelemetryRecord>, i: nat, q: int) {
    && i < |records|
    && Codec.DecodePacket(records[i].packet).Success?
    && Codec.DecodePacket(records[i].packet).value.sequence == q
  }

  /** The candidates for `q` are exactly the original rows that decode to it, rejected rows counted. */
  lemma CandidatesAreRows(records: seq<RecordedTelemetryRecord>, q: int, i: nat)
    requires Numbered(records)
    ensures i in IndicesWith(SightingsOf(records), q) <==> Carries(records, i, q)
  {
    hide Codec.DecodePacket, IndicesWith;
    var ds, s := DecodedRecords(records), SightingsOf(records);
    DecodedRise(records);
    DecodedNamesRows(records);
    IndicesRise(s, q);
    if i in IndicesWith(s, q) {
      var k :| 0 <= k < |s| && s[k] == Sighting(i, q);
      assert ds[k].index == i && ds[k].packet.sequence == q;
      assert ds[k] in ds && Names(records, ds[k]);
    }
    if Carries(records, i, q) {
      var k :| 0 <= k < |ds| && ds[k].index == i;
      assert ds[k] in ds && Names(records, ds[k]);
      assert s[k] == Sighting(i, q);
      SightingListed(s, k);
    }
  }

  lemma CandidateCount(s: seq<Sighting>, q: int)
    ensures |IndicesWith(s, q)| == multiset(Numbers(s))[q]
  {
    ScanAgreesWithIndex(s, q);
    OccurrencesCount(Numbers(s), q);
  }

  // ---------- membership in the alarm lane ----------

  lemma {:induction false} AlarmEntries(s: seq<Sighting>, events: seq<AlarmEvents.AlarmEvent>, t: TimelineEntry)
    ensures t in AlarmTimeline(s, events) <==>
      exists k :: 0 <= k < |events| && Alarmed(events[k]) && t == AlarmEntry(s, events[k])
  {
    if events == [] {
    } else {
      var init, n := events[..|events| - 1], |events| - 1;
      AlarmEntries(s, init, t);
      if t in AlarmTimeline(s, init) {
        var k :| 0 <= k < |init| && Alarmed(init[k]) && t == AlarmEntry(s, init[k]);
        assert events[k] == init[k];
      }
      if exists k :: 0 <= k < |events| && Alarmed(events[k]) && t == AlarmEntry(s, events[k]) {
        var k :| 0 <= k < |events| && Alarmed(events[k]) && t == AlarmEntry(s, events[k]);
        if k < n { assert init[k] == events[k]; }
      }
    }
  }

  lemma {:induction false} AlarmFindingsFrom(
    w: Wording, s: seq<Sighting>, events: seq<AlarmEvents.AlarmEvent>, d: Diagnostic)
    requires d in AlarmFindings(w, s, events)
    ensures exists k :: 0 <= k < |events| && Alarmed(events[k]) && d in AlarmFinding(w, s, events[k])
  {
    hide AlarmFinding;
    var init, n := events[..|events| - 1], |events| - 1;
    if d in AlarmFindings(w, s, init) {
      AlarmFindingsFrom(w, s, init, d);
      var k :| 0 <= k < |init| && Alarmed(init[k]) && d in AlarmFinding(w, s, init[k]);
      assert events[k] == init[k];
    } else {
      assert d in AlarmFinding(w, s, events[n]);
    }
  }

  // ---------- duplicates and ambiguity ----------

  /** A duplicate diagnostic that lists the given rows. */
  predicate Duplicate(d: Diagnostic, rows: seq<nat>) {
    d.code == TelemetrySequenceDuplicate && d.relatedIndices == rows
  }

  lemma NothingRepeats(q: int)
    ensures IndicesWith([], q) == []
  {
  }

  lemma DuplicateIsFound(w: Wording, e: Evidence, q: int)
    requires |IndicesWith(DecodedIn(e), q)| >= 2
    ensures DuplicateFor(w, DecodedIn(e), q) in Findings(w, e)
  {
    hide IndicesWith, DistinctSequences, DuplicateFor, DuplicatesAmong, Rejections, GapDiagnostics, AlarmDiagnostics,
      LinkDiagnostics;
    var s := DecodedIn(e);
    DistinctAreAll(s);
    IndicesAbsent(s, q);
    if e.telemetry.None? { NothingRepeats(q); }
    DuplicateListed(w, s, DistinctSequences(s), DuplicateFor(w, s, q));
  }

  lemma CodeIn(s: seq<Diagnostic>, lane: EvidenceLane, codes: set<DiagnosticCode>, d: Diagnostic)
    requires Kind(s, lane, codes)
    ensures d in s ==> d.code in codes
  {
  }

  lemma TelemetryDuplicates(w: Wording, records: seq<RecordedTelemetryRecord>, d: Diagnostic)
    requires Speaks(w) && Numbered(records)
    requires d in TelemetryDiagnostics(w, records) && d.code == TelemetrySequenceDuplicate
    ensures |d.relatedIndices| >= 2
  {
    hide Kind, Rejections, GapDiagnostics, DuplicatesAmong, IndicesWith, Diagnostic.Valid;
    var s := SightingsOf(records);
    DecodedRise(records);
    RejectionsClean(w, records);
    CodeIn(Rejections(w, records), TelemetryLane, {TelemetryPacketRejected}, d);
    GapsClean(w, s);
    CodeIn(GapDiagnostics(w, s), TelemetryLane, {TelemetrySequenceGap}, d);
    DuplicateListed(w, s, DistinctSequences(s), d);
  }

  lemma DuplicatesHaveTwoRows(w: Wording, e: Evidence, d: Diagnostic)
    requires Speaks(w) && Loaded(e)
    requires d in Findings(w, e) && d.code == TelemetrySequenceDuplicate
    ensures |d.relatedIndices| >= 2
  {
    hide Kind, TelemetryDiagnostics, AlarmDiagnostics, LinkDiagnostics, AlarmEvents.AcceptedLog,
      LinkEvents.AcceptedLog, Diagnostic.Valid;
    if e.telemetry.Some? && d in TelemetryDiagnostics(w, e.telemetry.value.records) {
      TelemetryDuplicates(w, e.telemetry.value.records, d);
    } else {
      if e.telemetry.Some? { DecodedRise(e.telemetry.value.records); }
      if e.alarm.Some? {
        AcceptedAlarmsNumbered(e.alarm.value.records);
        AlarmClean(w, DecodedIn(e), e.alarm.value.records);
        CodeIn(AlarmDiagnostics(w, DecodedIn(e), e.alarm.value.records), AlarmLane, ALARM_CODES, d);
      }
      if e.link.Some? {
        AcceptedLinkNumbered(e.link.value.records);
        LinkClean(w, e.link.value.records);
        CodeIn(LinkDiagnostics(w, e.link.value.records), LinkLane, LINK_CODES, d);
      }
    }
  }

  /**
   * An alarm is AMBIGUOUS exactly when the session has a duplicate diagnostic, and that diagnostic
   * lists the very rows that the alarm's correlation names.
   */
  lemma AmbiguousIffDuplicate(w: Wording, e: Evidence, t: TimelineEntry)
    requires Speaks(w) && Loaded(e) && e.alarm.Some?
    requires t in AlarmTimeline(DecodedIn(e), e.alarm.value.records)
    ensures t.correlation.Some?
    ensures t.correlation.value.kind == Ambiguous <==>
      exists d :: d in Session(w, e).diagnostics && Duplicate(d, t.correlation.value.candidates)
  {
    hide Loaded, Findings, IndicesWith, SortBy, AlarmTimeline, DuplicateDiagnostics, Diagnostic.Valid;
    var s := DecodedIn(e);
    AlarmEntries(s, e.alarm.value.records, t);
    var k :| 0 <= k < |e.alarm.value.records| && Alarmed(e.alarm.value.records[k])
      && t == AlarmEntry(s, e.alarm.value.records[k]);
    var q := e.alarm.value.records[k].packetSequence.value;
    SortBySorts(DiagnosticKey, Findings(w, e));
    if |IndicesWith(s, q)| >= 2 {
      DuplicateIsFound(w, e, q);
      var d := DuplicateFor(w, s, q);
      assert d in multiset(Session(w, e).diagnostics);
      assert d in Session(w, e).diagnostics && Duplicate(d, IndicesWith(s, q));
    }
    forall d | d in Session(w, e).diagnostics && d.code == TelemetrySequenceDuplicate
      ensures |d.relatedIndices| >= 2
    {
      assert d in multiset(Session(w, e).diagnostics);
      DuplicatesHaveTwoRows(w, e, d);
    }
  }

  // ---------- one receiver run ----------

  /** The alarm log after the first `m` transitions of a run, still open or closed. */
  function AlarmLog(r: AlarmEvents.Recording, entries: seq<AlarmEvents.Entry>, closed: bool)
    : seq<AlarmEvents.AlarmEvent>
  {
    if closed then AlarmEvents.ClosedLog(r, entries) else AlarmEvents.LogOf(r, entries)
  }

  lemma EventsNameEntries(
    r: AlarmEvents.Recording, entries: seq<AlarmEvents.Entry>, closed: bool, e: AlarmEvents.AlarmEvent)
    requires e in AlarmLog(r, entries, closed) && Alarmed(e)
    ensures exists j :: 0 <= j < |entries| && entries[j].sequence == e.packetSequence.value
  {
    var log := AlarmEvents.LogOf(r, entries);
    assert e in log;
    var k :| 0 <= k < |log| && log[k] == e;
    AlarmEvents.EventsOfLog(r, entries, k);
    if k > 0 { assert entries[k - 1].sequence == e.packetSequence.value; }
  }

  lemma DecodedSequencesInRange(received: seq<Received>)
    ensures forall k :: 0 <= k < |PacketsOfRun(received)| ==> Codec.Unsigned32(PacketsOfRun(received)[k].sequence)
  {
    DecodedInRange(Rows(received));
    var ds := DecodedRecords(Rows(received));
    forall k | 0 <= k < |ds|
      ensures Codec.Unsigned32(ds[k].packet.sequence)
    {
      assert Codec.ValidatePacket(ds[k].packet) == None;
    }
  }

  /** Every alarm that a receiver has logged, its telemetry had been recorded before. */
  lemma AlarmHasRow(
    policy: Alarms.AlarmPolicy, received: seq<Received>, m: nat, r: AlarmEvents.Recording, closed: bool,
    e: AlarmEvents.AlarmEvent)
    requires m <= |EntriesOfRun(policy, received)|
    requires e in AlarmLog(r, EntriesOfRun(policy, received)[..m], closed) && Alarmed(e)
    ensures IndicesWith(SightingsOf(Rows(received)), e.packetSequence.value) != []
  {
    hide EntriesOf, IndicesWith, Alarms.StateAfter;
    var entries := EntriesOfRun(policy, received);
    EventsNameEntries(r, entries[..m], closed, e);
    var j :| 0 <= j < m && entries[..m][j].sequence == e.packetSequence.value;
    var packets := PacketsOfRun(received);
    DecodedSequencesInRange(received);
    EntriesNamePackets(policy, packets);
    assert entries[j] in EntriesOf(policy, packets);
    var k :| 0 <= k < |packets| && packets[k].sequence == entries[j].sequence;
    SightingListed(SightingsOf(Rows(received)), k);
  }

  /**
   * Receiver to inspector, at every prefix of the run (`received` datagrams, of whose transitions
   * `m` had been written): no correlation is IMPOSSIBLE; it is EXACT exactly when the alarm's
   * sequence occurs once among the decoded rows; and the candidates are original row numbers.
   */
  lemma ReceiverCorrelates(
    policy: Alarms.AlarmPolicy, received: seq<Received>, m: nat, r: AlarmEvents.Recording, closed: bool,
    t: TimelineEntry)
    requires m <= |EntriesOfRun(policy, received)|
    requires t in AlarmTimeline(SightingsOf(Rows(received)),
      AlarmLog(r, EntriesOfRun(policy, received)[..m], closed))
    ensures t.packetSequence.Some? && t.correlation.Some?
    ensures var q, c := t.packetSequence.value, t.correlation.value;
      && (c.kind == Exact || c.kind == Ambiguous)
      && (c.kind == Exact <==> multiset(Numbers(SightingsOf(Rows(received))))[q] == 1)
      && (forall i: nat :: i in c.candidates <==> Carries(Rows(received), i, q))
  {
    hide EntriesOfRun, IndicesWith, AlarmLog, SightingsOf, Codec.DecodePacket, Carries;
    var s := SightingsOf(Rows(received));
    var log := AlarmLog(r, EntriesOfRun(policy, received)[..m], closed);
    AlarmEntries(s, log, t);
    var k :| 0 <= k < |log| && Alarmed(log[k]) && t == AlarmEntry(s, log[k]);
    AlarmHasRow(policy, received, m, r, closed, log[k]);
    var q := log[k].packetSequence.value;
    CandidateCount(s, q);
    forall i: nat
      ensures i in IndicesWith(s, q) <==> Carries(Rows(received), i, q)
    {
      CandidatesAreRows(Rows(received), q, i);
    }
  }

  // ---------- gaps in the alarm log and in the recording ----------

  /** How many of the logged transitions are sequence gaps. */
  function GapEvents(log: seq<AlarmEvents.AlarmEvent>): nat {
    if log == [] then 0
    else
      var last := log[|log| - 1];
      GapEvents(log[..|log| - 1])
      + (if last.attributes.Alarm? && last.attributes.identity == Alarms.SequenceGap then 1 else 0)
  }

  lemma GapEventsAppend(log: seq<AlarmEvents.AlarmEvent>, e: AlarmEvents.AlarmEvent)
    ensures GapEvents(log + [e]) ==
      GapEvents(log) + (if e.attributes.Alarm? && e.attributes.identity == Alarms.SequenceGap then 1 else 0)
  {
    assert (log + [e])[..|log|] == log;
  }

  /** The log holds the gap transitions that it was given. */
  lemma {:induction false} GapEventsOfLog(
    r: AlarmEvents.Recording, entries: seq<AlarmEvents.Entry>, ts: seq<Alarms.AlarmTransition>)
    requires |entries| == |ts| && forall k :: 0 <= k < |ts| ==> entries[k].transition == ts[k]
    ensures GapEvents(AlarmEvents.LogOf(r, entries)) == Alarms.CountIdentity(ts, Alarms.SequenceGap)
  {
    if entries == [] {
      var header := AlarmEvents.LogOf(r, [])[0];
      assert AlarmEvents.LogOf(r, []) == [] + [header];
      GapEventsAppend([], header);
    } else {
      var n := |entries| - 1;
      GapEventsOfLog(r, entries[..n], ts[..n]);
      GapEventsAppend(AlarmEvents.LogOf(r, entries[..n]), AlarmEvents.EventFor(r, |entries|, entries[n]));
    }
  }

  /**
   * With gap detection on, a run's alarm log holds as many sequence-gap events as the inspector
   * counts gaps in the run's recording, plus one for each immediate repeat; with detection off, none.
   */
  lemma AlarmGapsAreTelemetryGaps(
    policy: Alarms.AlarmPolicy, received: seq<Received>, r: AlarmEvents.Recording, closed: bool, name: string)
    ensures GapEvents(AlarmLog(r, EntriesOfRun(policy, received), closed)) ==
      if policy.detectGaps then
        TelemetrySummary(name, Rows(received)).counters.gaps
        + AdjacentRepeats(Numbers(SightingsOf(Rows(received))))
      else 0
  {
    hide EntriesOf, GapEvents, AlarmEvents.LogOf, Alarms.AllTransitions, Alarms.CountIdentity, DecodedRecords,
      DistinctSequences, GapCount, AdjacentRepeats;
    var packets, entries := PacketsOfRun(received), EntriesOfRun(policy, received);
    DecodedSequencesInRange(received);
    EntriesAreTransitions(policy, packets);
    GapEventsOfLog(r, entries, Alarms.AllTransitions(policy, packets));
    var log := AlarmEvents.LogOf(r, entries);
    GapEventsAppend(log, AlarmEvents.SummaryFor(r, |entries| + 1, AlarmEvents.StatisticsOf(log)));
    EngineGaps(policy, packets);
    assert SequencesOf(packets) == Numbers(SightingsOf(Rows(received)));
  }

  /** Both streams of a run as evidence, beside whatever link evidence there is. */
  function RunEvidence(
    policy: Alarms.AlarmPolicy, received: seq<Received>, m: nat, r: AlarmEvents.Recording, closed: bool,
    telemetryName: string, alarmName: string, link: Option<Source<LinkEvents.LinkEvent>>)
    : Evidence
    requires m <= |EntriesOfRun(policy, received)|
  {
    Evidence(Some(Source(telemetryName, Rows(received))),
      Some(Source(alarmName, AlarmLog(r, EntriesOfRun(policy, received)[..m], closed))), link)
  }

  ghost predicate LinkLoaded(link: Option<Source<LinkEvents.LinkEvent>>) {
    link.Some? ==>
      && Openable(link.value.name)
      && LinkEvents.AcceptedLog(link.value.records)
      && SummaryChecked(link.value.records)
  }

  lemma FindingIsPossible(
    w: Wording, policy: Alarms.AlarmPolicy, received: seq<Received>, m: nat, r: AlarmEvents.Recording, closed: bool,
    telemetryName: string, alarmName: string, link: Option<Source<LinkEvents.LinkEvent>>, d: Diagnostic)
    requires Speaks(w) && m <= |EntriesOfRun(policy, received)| && LinkLoaded(link)
    requires d in Findings(w, RunEvidence(policy, received, m, r, closed, telemetryName, alarmName, link))
    ensures d.code != AlarmCorrelationImpossible
  {
    hide EntriesOfRun, Kind, TelemetryDiagnostics, AlarmFindings, IndicesWith, AlarmLog, SightingsOf, LinkDiagnostics,
      LinkEvents.AcceptedLog, Diagnostic.Valid;
    var s := SightingsOf(Rows(received));
    var log := AlarmLog(r, EntriesOfRun(policy, received)[..m], closed);
    if d in TelemetryDiagnostics(w, Rows(received)) {
      TelemetryClean(w, Rows(received));
      CodeIn(TelemetryDiagnostics(w, Rows(received)), TelemetryLane, TELEMETRY_CODES, d);
    } else if d in AlarmFindings(w, s, log) {
      AlarmFindingsFrom(w, s, log, d);
      var k :| 0 <= k < |log| && Alarmed(log[k]) && d in AlarmFinding(w, s, log[k]);
      AlarmHasRow(policy, received, m, r, closed, log[k]);
    } else if link.Some? {
      AcceptedLinkNumbered(link.value.records);
      LinkClean(w, link.value.records);
      CodeIn(LinkDiagnostics(w, link.value.records), LinkLane, LINK_CODES, d);
    }
  }

  /** The inspector loads both streams exactly when the clock was steady, and reports no impossible alarm. */
  lemma ReceiverNeverImpossible(
    w: Wording, policy: Alarms.AlarmPolicy, received: seq<Received>, m: nat, r: AlarmEvents.Recording, closed: bool,
    telemetryName: string, alarmName: string, link: Option<Source<LinkEvents.LinkEvent>>)
    requires Speaks(w) && r.Valid() && Openable(telemetryName) && Openable(alarmName)
    requires LinkLoaded(link)
    requires m <= |EntriesOfRun(policy, received)|
    ensures var e := RunEvidence(policy, received, m, r, closed, telemetryName, alarmName, link);
      && (Loaded(e) <==> AlarmEvents.Steady(r, if closed then m + 1 else m))
      && (forall d :: d in Session(w, e).diagnostics ==> d.code != AlarmCorrelationImpossible)
  {
    hide EntriesOfRun, SortBy, Findings, Openable;
    var e := RunEvidence(policy, received, m, r, closed, telemetryName, alarmName, link);
    var entries := EntriesOfRun(policy, received)[..m];
    AlarmEvents.OpenLogAccepted(r, entries);
    AlarmEvents.ClosedLogAccepted(r, entries);
    SortBySorts(DiagnosticKey, Findings(w, e));
    forall d | d in Session(w, e).diagnostics
      ensures d.code != AlarmCorrelationImpossible
    {
      assert d in multiset(Session(w, e).diagnostics);
      assert d in Findings(w, e);
      FindingIsPossible(w, policy, received, m, r, closed, telemetryName, alarmName, link, d);
    }
  }
}
