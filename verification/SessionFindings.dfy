/**
 * What a session must contain, read off the raw evidence: which diagnostics are warranted, which entries
 * belong on the timeline, and what each summary counts. Sessions contain exactly that.
 */
module SessionFindings {
  import opened Wrappers
  import opened Correlation
  import opened Inspection
  import opened Ordering
  import opened SequenceInspection
  import opened SessionModels
  import opened SessionNormalization
  import opened SessionValidity
  import opened TelemetryRecording
  import AlarmEvents
  import Codec
  import LinkEvents
  import LogMeaning
  import ReceiverInspection

  // ---------- rows that carry a sequence number ----------

  predicate Decodes(records: seq<RecordedTelemetryRecord>, k: nat) {
    k < |records| && Codec.DecodePacket(records[k].packet).Success?
  }

  function SequenceAt(records: seq<RecordedTelemetryRecord>, k: nat): int
    requires Decodes(records, k)
  {
    Codec.DecodePacket(records[k].packet).value.sequence
  }

  predicate CarriedBy(records: seq<RecordedTelemetryRecord>, q: int, k: nat) {
    Decodes(records, k) && SequenceAt(records, k) == q
  }

  /** `rows` lists the rows that decode to sequence `q`, all of them, in ascending order. */
  ghost predicate RowsOf(records: seq<RecordedTelemetryRecord>, q: int, rows: seq<nat>) {
    && (forall j, k :: 0 <= j < k < |rows| ==> rows[j] < rows[k])
    && (forall k: nat :: k in rows <==> CarriedBy(records, q, k))
  }

  lemma IndicesAreRows(records: seq<RecordedTelemetryRecord>, q: int)
    requires Numbered(records)
    ensures RowsOf(records, q, IndicesWith(SightingsOf(records), q))
  {
    hide Codec.DecodePacket, SightingsOf;
    DecodedRise(records);
    IndicesRise(SightingsOf(records), q);
    forall k: nat
      ensures k in IndicesWith(SightingsOf(records), q) <==> CarriedBy(records, q, k)
    {
      ReceiverInspection.CandidatesAreRows(records, q, k);
    }
  }

  lemma FirstIsMember(y: seq<nat>)
    requires y != []
    ensures y[0] in y
  {
  }

  lemma {:induction false} SameMembersSameRows(x: seq<nat>, y: seq<nat>)
    requires forall j, k :: 0 <= j < k < |x| ==> x[j] < x[k]
    requires forall j, k :: 0 <= j < k < |y| ==> y[j] < y[k]
    requires forall k: nat :: k in x <==> k in y
    ensures x == y
  {
    if x == [] {
      if y != [] { FirstIsMember(y); }
    } else {
      assert x[|x| - 1] in x;
      var n, m := |x| - 1, |y| - 1;
      assert x[n] in y && y[m] in x;
      assert x[n] == y[m];
      forall k: nat
        ensures k in x[..n] <==> k in y[..m]
      {
        assert k in x[..n] <==> k in x && k != x[n];
        assert k in y[..m] <==> k in y && k != y[m];
      }
      SameMembersSameRows(x[..n], y[..m]);
      assert x == x[..n] + [x[n]] && y == y[..m] + [y[m]];
    }
  }

  lemma RowsOnce(records: seq<RecordedTelemetryRecord>, q: int, rows: seq<nat>)
    requires Numbered(records) && RowsOf(records, q, rows)
    ensures rows == IndicesWith(SightingsOf(records), q)
  {
    hide CarriedBy;
    IndicesAreRows(records, q);
    SameMembersSameRows(rows, IndicesWith(SightingsOf(records), q));
  }

  // ---------- warranted diagnostics ----------

  /** A warning about one record, or about a lane as a whole, that names no other record. */
  function Plain(w: Wording, code: DiagnosticCode, m: Message, lane: EvidenceLane, index: Option<int>): Diagnostic {
    Diagnostic(code, Warning, w(m), Some(lane), index, None, [])
  }

  predicate RejectedAt(w: Wording, records: seq<RecordedTelemetryRecord>, k: nat, d: Diagnostic) {
    && k < |records|
    && var decoded := Codec.DecodePacket(records[k].packet);
    && decoded.Failure?
    && d == Plain(w, TelemetryPacketRejected, Rejected(k, decoded.error), TelemetryLane, Some(k))
  }

  ghost predicate RepeatedIn(
    w: Wording, records: seq<RecordedTelemetryRecord>, q: int, rows: seq<nat>, d: Diagnostic)
  {
    && RowsOf(records, q, rows) && |rows| >= 2
    && d == Diagnostic(TelemetrySequenceDuplicate, Warning, w(Repeated(q)), Some(TelemetryLane), Some(rows[0]),
         Some(TelemetryLane), rows)
  }

  /** Rows `i` and `k` decode, no row between them does, and `k` does not carry what should follow `i`. */
  ghost predicate GapAt(w: Wording, records: seq<RecordedTelemetryRecord>, i: nat, k: nat, d: Diagnostic) {
    && i < k && Decodes(records, i) && Decodes(records, k) && (forall j: nat :: i < j < k ==> !Decodes(records, j))
    && var a, b := SequenceAt(records, i), SequenceAt(records, k);
    && var next, step := (a + 1) % 0x1_0000_0000, (b - a) % 0x1_0000_0000;
    && b != a && b != next
    && d == Diagnostic(TelemetrySequenceGap, Warning,
         w(Gap(a, next, b, if 1 < step <= 0x8000_0000 then Some(step - 1) else None)),
         Some(TelemetryLane), Some(k), Some(TelemetryLane), [i, k])
  }

  ghost predicate TelemetryWarrants(w: Wording, records: seq<RecordedTelemetryRecord>, d: Diagnostic) {
    || (exists k: nat :: RejectedAt(w, records, k, d))
    || (exists q: int, rows: seq<nat> :: RepeatedIn(w, records, q, rows, d))
    || (exists i: nat, k: nat :: GapAt(w, records, i, k, d))
    || (records == [] && d == Plain(w, SourceEmpty, EmptySource(TelemetryLane), TelemetryLane, None))
  }

  /** Event `k` is a transition whose sequence no row carries, or several do. */
  ghost predicate DoubtfulAt(
    w: Wording, records: seq<RecordedTelemetryRecord>, events: seq<AlarmEvents.AlarmEvent>, k: nat, rows: seq<nat>,
    d: Diagnostic)
  {
    && k < |events|
    && events[k].eventType in {AlarmEvents.AlarmRaised, AlarmEvents.AlarmUpdated, AlarmEvents.AlarmCleared}
    && events[k].packetSequence.Some?
    && var q := events[k].packetSequence.value;
    && RowsOf(records, q, rows)
    && (|| (rows == [] &&
             d == Plain(w, AlarmCorrelationImpossible, ImpossibleAlarm(k, q), AlarmLane, Some(k)))
        || (|rows| >= 2 &&
             d == Diagnostic(AlarmCorrelationAmbiguous, Error, w(AmbiguousAlarm(k, q)), Some(AlarmLane), Some(k),
               Some(TelemetryLane), rows)))
  }

  ghost predicate AlarmWarrants(
    w: Wording, records: seq<RecordedTelemetryRecord>, events: seq<AlarmEvents.AlarmEvent>, d: Diagnostic)
  {
    || (exists k: nat, rows: seq<nat> :: DoubtfulAt(w, records, events, k, rows, d))
    || (events == [] && d == Plain(w, SourceEmpty, EmptySource(AlarmLane), AlarmLane, None))
    || (events != [] && events[|events| - 1].eventType != AlarmEvents.RunSummary &&
         d == Plain(w, SourceSummaryMissing, NoSummary(AlarmLane), AlarmLane, None))
  }

  predicate CorruptedAt(w: Wording, events: seq<LinkEvents.LinkEvent>, k: nat, d: Diagnostic) {
    && k < |events| && events[k].eventType == LinkEvents.PacketCorrupted
    && d == Plain(w, LinkCorruptionObserved, Corruption(events[k].packetIndex), LinkLane, Some(k))
  }

  ghost predicate LinkWarrants(w: Wording, events: seq<LinkEvents.LinkEvent>, d: Diagnostic) {
    || (exists k: nat :: CorruptedAt(w, events, k, d))
    || (events == [] && d == Plain(w, SourceEmpty, EmptySource(LinkLane), LinkLane, None))
    || (events != [] && events[|events| - 1].eventType != LinkEvents.RunSummary &&
         d == Plain(w, SourceSummaryMissing, NoSummary(LinkLane), LinkLane, None))
  }

  /** The rows that alarms can be matched against. */
  function RecordsIn(e: Evidence): seq<RecordedTelemetryRecord> {
    if e.telemetry.Some? then e.telemetry.value.records else []
  }

  ghost predicate Warranted(w: Wording, e: Evidence, d: Diagnostic) {
    || (if e.telemetry.Some? then TelemetryWarrants(w, e.telemetry.value.records, d)
        else d == Plain(w, SourceNotProvided, NotProvided(TelemetryLane), TelemetryLane, None))
    || (if e.alarm.Some? then AlarmWarrants(w, RecordsIn(e), e.alarm.value.records, d)
        else d == Plain(w, SourceNotProvided, NotProvided(AlarmLane), AlarmLane, None))
    || (if e.link.Some? then LinkWarrants(w, e.link.value.records, d)
        else d == Plain(w, SourceNotProvided, NotProvided(LinkLane), LinkLane, None))
  }

  // ---------- telemetry ----------

  lemma {:induction false} RejectionsAreWarranted(
    w: Wording, records: seq<RecordedTelemetryRecord>, d: Diagnostic)
    requires Numbered(records)
    ensures d in Rejections(w, records) <==> exists k: nat :: RejectedAt(w, records, k, d)
  {
    hide Codec.DecodePacket;
    if records == [] {
    } else {
      var n := |records| - 1;
      var init := records[..n];
      RejectionsAreWarranted(w, init, d);
      forall k: nat
        ensures RejectedAt(w, records, k, d) <==> RejectedAt(w, init, k, d) || (k == n && RejectedAt(w, records, n, d))
      {
      }
      var decoded := Codec.DecodePacket(records[n].packet);
      assert RejectedAt(w, records, n, d) <==> decoded.Failure? && d == Rejection(w, n, decoded.error);
    }
  }

  lemma DuplicatesAreWarranted(w: Wording, records: seq<RecordedTelemetryRecord>, d: Diagnostic)
    requires Numbered(records)
    ensures d in DuplicateDiagnostics(w, SightingsOf(records)) <==>
      exists q: int, rows: seq<nat> :: RepeatedIn(w, records, q, rows, d)
  {
    hide SightingsOf, IndicesWith, RowsOf, DistinctSequences;
    var s := SightingsOf(records);
    DuplicatesAreAmong(w, s);
    DuplicateListed(w, s, DistinctSequences(s), d);
    DistinctAreAll(s);
    if d in DuplicateDiagnostics(w, s) {
      var q :| q in DistinctSequences(s) && |IndicesWith(s, q)| >= 2 && d == DuplicateFor(w, s, q);
      IndicesAreRows(records, q);
      assert RepeatedIn(w, records, q, IndicesWith(s, q), d);
    }
    if exists q: int, rows: seq<nat> :: RepeatedIn(w, records, q, rows, d) {
      var q: int, rows: seq<nat> :| RepeatedIn(w, records, q, rows, d);
      RowsOnce(records, q, rows);
      IndicesAbsent(s, q);
      assert q in DistinctSequences(s) && d == DuplicateFor(w, s, q);
    }
  }

  predicate GapAfter(w: Wording, s: seq<Sighting>, n: nat, d: Diagnostic) {
    0 < n < |s| && IsGap(s[n - 1].sequence, s[n].sequence) && d == GapFor(w, s[n - 1], s[n])
  }

  /** Gaps are found between neighbours among the decoded rows. */
  lemma {:induction false} GapsListed(w: Wording, s: seq<Sighting>, d: Diagnostic)
    ensures d in GapDiagnostics(w, s) <==> exists n: nat :: GapAfter(w, s, n, d)
  {
    hide IsGap, GapFor;
    if |s| < 2 {
    } else {
      var m := |s| - 1;
      GapsListed(w, s[..m], d);
      if d in GapDiagnostics(w, s[..m]) {
        var n: nat :| GapAfter(w, s[..m], n, d);
        assert GapAfter(w, s, n, d);
      } else if d in GapDiagnostics(w, s) {
        assert GapAfter(w, s, m, d);
      }
      if exists n: nat :: GapAfter(w, s, n, d) {
        var n: nat :| GapAfter(w, s, n, d);
        assert n < m ==> GapAfter(w, s[..m], n, d);
      }
    }
  }

  lemma DecodedRowIsSighted(records: seq<RecordedTelemetryRecord>, k: nat) returns (m: nat)
    requires Numbered(records) && Decodes(records, k)
    ensures m < |SightingsOf(records)| && SightingsOf(records)[m] == Sighting(k, SequenceAt(records, k))
  {
    hide Codec.DecodePacket, DecodedRecords;
    var ds := DecodedRecords(records);
    DecodedNamesRows(records);
    m :| 0 <= m < |ds| && ds[m].index == k;
    assert ds[m] in ds && Names(records, ds[m]);
  }

  lemma NothingBetween(records: seq<RecordedTelemetryRecord>, n: nat, j: nat)
    requires Numbered(records) && 0 < n < |SightingsOf(records)|
    requires SightingsOf(records)[n - 1].index < j < SightingsOf(records)[n].index
    ensures !Decodes(records, j)
  {
    hide Decodes, SequenceAt, SightingsOf;
    DecodedRise(records);
    if Decodes(records, j) {
      var m := DecodedRowIsSighted(records, j);
    }
  }

  /** Neighbours among the decoded rows are rows between which nothing decodes. */
  lemma NeighboursDecode(records: seq<RecordedTelemetryRecord>, n: nat)
    requires Numbered(records) && 0 < n < |SightingsOf(records)|
    ensures var s := SightingsOf(records); var i, k := s[n - 1].index, s[n].index;
      && i < k && Decodes(records, i) && Decodes(records, k)
      && s[n - 1].sequence == SequenceAt(records, i) && s[n].sequence == SequenceAt(records, k)
      && forall j: nat :: i < j < k ==> !Decodes(records, j)
  {
    hide Codec.DecodePacket, DecodedRecords;
    var ds, s := DecodedRecords(records), SightingsOf(records);
    DecodedNamesRows(records);
    assert ds[n - 1] in ds && ds[n] in ds;
    assert Names(records, ds[n - 1]) && Names(records, ds[n]);
    forall j: nat | s[n - 1].index < j < s[n].index { NothingBetween(records, n, j); }
  }

  lemma GapIsBetweenNeighbours(records: seq<RecordedTelemetryRecord>, i: nat, k: nat) returns (n: nat)
    requires Numbered(records) && i < k && Decodes(records, i) && Decodes(records, k)
    requires forall j: nat :: i < j < k ==> !Decodes(records, j)
    ensures 0 < n < |SightingsOf(records)|
    ensures SightingsOf(records)[n - 1] == Sighting(i, SequenceAt(records, i))
    ensures SightingsOf(records)[n] == Sighting(k, SequenceAt(records, k))
  {
    hide Decodes, SequenceAt, SightingsOf;
    var s := SightingsOf(records);
    var m := DecodedRowIsSighted(records, i);
    n := DecodedRowIsSighted(records, k);
    DecodedRise(records);
    NeighboursDecode(records, n);
    assert s[n - 1].index <= i;
  }

  lemma SameGap(w: Wording, records: seq<RecordedTelemetryRecord>, x: Sighting, y: Sighting, d: Diagnostic)
    requires x.index < y.index && Decodes(records, x.index) && Decodes(records, y.index)
    requires x.sequence == SequenceAt(records, x.index) && y.sequence == SequenceAt(records, y.index)
    requires forall j: nat :: x.index < j < y.index ==> !Decodes(records, j)
    ensures GapAt(w, records, x.index, y.index, d) <==> IsGap(x.sequence, y.sequence) && d == GapFor(w, x, y)
  {
    hide Decodes, SequenceAt;
  }

  lemma GapsAreWarranted(w: Wording, records: seq<RecordedTelemetryRecord>, d: Diagnostic)
    requires Numbered(records)
    ensures d in GapDiagnostics(w, SightingsOf(records)) <==> exists i: nat, k: nat :: GapAt(w, records, i, k, d)
  {
    hide SightingsOf, IsGap, GapFor;
    var s := SightingsOf(records);
    GapsListed(w, s, d);
    if d in GapDiagnostics(w, s) {
      var n: nat :| GapAfter(w, s, n, d);
      NeighboursDecode(records, n);
      SameGap(w, records, s[n - 1], s[n], d);
    }
    if exists i: nat, k: nat :: GapAt(w, records, i, k, d) {
      var i: nat, k: nat :| GapAt(w, records, i, k, d);
      var n := GapIsBetweenNeighbours(records, i, k);
      SameGap(w, records, s[n - 1], s[n], d);
      assert GapAfter(w, s, n, d);
    }
  }

  lemma TelemetryFindings(w: Wording, records: seq<RecordedTelemetryRecord>, d: Diagnostic)
    requires Numbered(records)
    ensures d in TelemetryDiagnostics(w, records) <==> TelemetryWarrants(w, records, d)
  {
    hide Rejections, DuplicateDiagnostics, GapDiagnostics, SightingsOf, RejectedAt, RepeatedIn, GapAt;
    RejectionsAreWarranted(w, records, d);
    DuplicatesAreWarranted(w, records, d);
    GapsAreWarranted(w, records, d);
  }

  // ---------- alarms and link ----------

  lemma {:induction false} AlarmFindingsListed(
    w: Wording, s: seq<Sighting>, events: seq<AlarmEvents.AlarmEvent>, d: Diagnostic)
    ensures d in AlarmFindings(w, s, events) <==>
      exists k :: 0 <= k < |events| && Alarmed(events[k]) && d in AlarmFinding(w, s, events[k])
  {
    hide AlarmFinding, Alarmed;
    if events == [] {
    } else {
      AlarmFindingsListed(w, s, events[..|events| - 1], d);
    }
  }

  lemma NoRowsSighted(q: int)
    ensures IndicesWith([], q) == [] && SightingsOf([]) == []
  {
  }

  lemma AlarmsAreWarranted(
    w: Wording, records: seq<RecordedTelemetryRecord>, events: seq<AlarmEvents.AlarmEvent>, d: Diagnostic)
    requires Numbered(records) && AlarmsNumbered(events)
    ensures d in AlarmFindings(w, SightingsOf(records), events) <==>
      exists k: nat, rows: seq<nat> :: DoubtfulAt(w, records, events, k, rows, d)
  {
    hide SightingsOf, IndicesWith, RowsOf, AlarmFindings, AlarmEvents.EventShape;
    var s := SightingsOf(records);
    AlarmFindingsListed(w, s, events, d);
    if d in AlarmFindings(w, s, events) {
      var k :| 0 <= k < |events| && Alarmed(events[k]) && d in AlarmFinding(w, s, events[k]);
      var q := events[k].packetSequence.value;
      IndicesAreRows(records, q);
      assert DoubtfulAt(w, records, events, k, IndicesWith(s, q), d);
    }
    if exists k: nat, rows: seq<nat> :: DoubtfulAt(w, records, events, k, rows, d) {
      var k: nat, rows: seq<nat> :| DoubtfulAt(w, records, events, k, rows, d);
      RowsOnce(records, events[k].packetSequence.value, rows);
      assert Alarmed(events[k]) && d in AlarmFinding(w, s, events[k]);
    }
  }

  lemma AlarmLaneFindings(
    w: Wording, records: seq<RecordedTelemetryRecord>, events: seq<AlarmEvents.AlarmEvent>, d: Diagnostic)
    requires Numbered(records) && AlarmsNumbered(events)
    ensures d in AlarmDiagnostics(w, SightingsOf(records), events) <==> AlarmWarrants(w, records, events, d)
  {
    hide AlarmFindings, SightingsOf, DoubtfulAt;
    AlarmsAreWarranted(w, records, events, d);
  }

  lemma {:induction false} CorruptionsAreWarranted(w: Wording, events: seq<LinkEvents.LinkEvent>, d: Diagnostic)
    requires LinkNumbered(events)
    ensures d in LinkFindings(w, events) <==> exists k: nat :: CorruptedAt(w, events, k, d)
  {
    hide LinkEvents.EventShape;
    if events == [] {
    } else {
      var n := |events| - 1;
      var init := events[..n];
      CorruptionsAreWarranted(w, init, d);
      forall k: nat
        ensures CorruptedAt(w, events, k, d) <==> CorruptedAt(w, init, k, d) || (k == n && CorruptedAt(w, events, n, d))
      {
      }
      assert CorruptedAt(w, events, n, d) <==>
        events[n].eventType == LinkEvents.PacketCorrupted && d == LinkFinding(w, events[n]);
    }
  }

  lemma LinkLaneFindings(w: Wording, events: seq<LinkEvents.LinkEvent>, d: Diagnostic)
    requires LinkNumbered(events)
    ensures d in LinkDiagnostics(w, events) <==> LinkWarrants(w, events, d)
  {
    hide LinkFindings, CorruptedAt;
    CorruptionsAreWarranted(w, events, d);
  }

  lemma FindingsInSession(w: Wording, e: Evidence, d: Diagnostic)
    ensures d in Session(w, e).diagnostics <==> d in Findings(w, e)
    ensures SortedBy(DiagnosticKey, Session(w, e).diagnostics)
  {
    hide Findings, DiagnosticKey, Summaries, Timeline;
    var ds := Session(w, e).diagnostics;
    SortBySorts(DiagnosticKey, Findings(w, e));
    assert d in multiset(ds) <==> d in ds;
    assert d in multiset(Findings(w, e)) <==> d in Findings(w, e);
  }

  /**
   * A session of loaded evidence holds exactly the warranted diagnostics, each once, in diagnostic order;
   * this leaves one list.
   */
  lemma SessionReportsWarranted(w: Wording, e: Evidence, d: Diagnostic)
    requires Speaks(w) && Loaded(e)
    ensures d in Session(w, e).diagnostics <==> Warranted(w, e, d)
    ensures multiset(Session(w, e).diagnostics)[d] <= 1
    ensures SortedBy(DiagnosticKey, Session(w, e).diagnostics)
  {
    hide Session, TelemetryDiagnostics, AlarmDiagnostics, LinkDiagnostics, TelemetryWarrants, AlarmWarrants,
      LinkWarrants, AlarmEvents.AcceptedLog, LinkEvents.AcceptedLog, SightingsOf;
    FindingsInSession(w, e, d);
    DiagnosticsDistinct(w, e);
    if e.telemetry.Some? {
      TelemetryFindings(w, e.telemetry.value.records, d);
    }
    if e.alarm.Some? {
      AcceptedAlarmsNumbered(e.alarm.value.records);
      NoRowsSighted(0);
      AlarmLaneFindings(w, RecordsIn(e), e.alarm.value.records, d);
    }
    if e.link.Some? {
      AcceptedLinkNumbered(e.link.value.records);
      LinkLaneFindings(w, e.link.value.records, d);
    }
  }

  // ---------- the timeline ----------

  /** The entry of row `k`: its packet, or why it is none. */
  predicate RowEntryAt(records: seq<RecordedTelemetryRecord>, k: nat, t: TimelineEntry) {
    && k < |records|
    && var decoded, at := Codec.DecodePacket(records[k].packet), Some(records[k].receivedAt);
    && t == if decoded.Success? then
              TimelineEntry(TelemetryLane, k, TelemetryPacketEntry, PacketDecoded, at, None,
                Some(decoded.value.sequence), None, Some(decoded.value.timestampMs), Readings(decoded.value), None)
            else
              TimelineEntry(TelemetryLane, k, TelemetryRejected, PacketRejected, at, None, None, None, None,
                Reason(decoded.error), None)
  }

  /** The entry of transition `k`, matched with all the rows that carry its sequence. */
  ghost predicate AlarmEntryAt(
    records: seq<RecordedTelemetryRecord>, events: seq<AlarmEvents.AlarmEvent>, k: nat, rows: seq<nat>,
    t: TimelineEntry)
  {
    && k < |events|
    && var event := events[k];
    && event.eventType in {AlarmEvents.AlarmRaised, AlarmEvents.AlarmUpdated, AlarmEvents.AlarmCleared}
    && event.packetSequence.Some?
    && RowsOf(records, event.packetSequence.value, rows)
    && var kind := if |rows| == 0 then Impossible else if |rows| == 1 then Exact else Ambiguous;
    && t == TimelineEntry(AlarmLane, k, AlarmTransitionEntry, AlarmType(event.eventType), None, Some(event.elapsedNs),
         event.packetSequence, None, None, OfAlarm(event.attributes),
         Some(CorrelationDecision(kind, PacketSequence, rows)))
  }

  predicate LinkEntryAt(events: seq<LinkEvents.LinkEvent>, k: nat, t: TimelineEntry) {
    && k < |events|
    && var event := events[k];
    && event.eventType != LinkEvents.RunMetadata && event.eventType != LinkEvents.RunSummary
    && t == TimelineEntry(LinkLane, k, LinkEventEntry, LinkType(event.eventType), None, Some(event.elapsedNs), None,
         event.packetIndex, None, OfLink(event.attributes), None)
  }

  ghost predicate Belongs(e: Evidence, t: TimelineEntry) {
    || (e.telemetry.Some? && exists k: nat :: RowEntryAt(e.telemetry.value.records, k, t))
    || (e.alarm.Some? &&
         exists k: nat, rows: seq<nat> :: AlarmEntryAt(RecordsIn(e), e.alarm.value.records, k, rows, t))
    || (e.link.Some? && exists k: nat :: LinkEntryAt(e.link.value.records, k, t))
  }

  lemma RowEntries(records: seq<RecordedTelemetryRecord>, t: TimelineEntry)
    requires Numbered(records)
    ensures t in TelemetryTimeline(records) <==> exists k: nat :: RowEntryAt(records, k, t)
  {
    hide Codec.DecodePacket;
    var ts := TelemetryTimeline(records);
    forall k: nat | k < |records|
      ensures t == ts[k] <==> RowEntryAt(records, k, t)
    {
    }
    if t in ts {
      var k :| 0 <= k < |ts| && ts[k] == t;
      assert RowEntryAt(records, k, t);
    }
  }

  lemma AlarmEntriesListed(
    records: seq<RecordedTelemetryRecord>, events: seq<AlarmEvents.AlarmEvent>, t: TimelineEntry)
    requires Numbered(records) && AlarmsNumbered(events)
    ensures t in AlarmTimeline(SightingsOf(records), events) <==>
      exists k: nat, rows: seq<nat> :: AlarmEntryAt(records, events, k, rows, t)
  {
    hide SightingsOf, IndicesWith, RowsOf, AlarmTimeline, AlarmEvents.EventShape;
    var s := SightingsOf(records);
    ReceiverInspection.AlarmEntries(s, events, t);
    if t in AlarmTimeline(s, events) {
      var k :| 0 <= k < |events| && Alarmed(events[k]) && t == AlarmEntry(s, events[k]);
      var q := events[k].packetSequence.value;
      IndicesAreRows(records, q);
      assert AlarmEntryAt(records, events, k, IndicesWith(s, q), t);
    }
    if exists k: nat, rows: seq<nat> :: AlarmEntryAt(records, events, k, rows, t) {
      var k: nat, rows: seq<nat> :| AlarmEntryAt(records, events, k, rows, t);
      RowsOnce(records, events[k].packetSequence.value, rows);
      assert Alarmed(events[k]) && t == AlarmEntry(s, events[k]);
    }
  }

  lemma {:induction false} LinkEntriesListed(events: seq<LinkEvents.LinkEvent>, t: TimelineEntry)
    requires LinkNumbered(events)
    ensures t in LinkTimeline(events) <==> exists k: nat :: LinkEntryAt(events, k, t)
  {
    hide LinkEvents.EventShape;
    if events == [] {
    } else {
      var n := |events| - 1;
      var init := events[..n];
      LinkEntriesListed(init, t);
      forall k: nat
        ensures LinkEntryAt(events, k, t) <==> LinkEntryAt(init, k, t) || (k == n && LinkEntryAt(events, n, t))
      {
      }
      assert LinkEntryAt(events, n, t) <==> !IsContext(events[n].eventType) && t == LinkEntry(events[n]);
    }
  }

  /**
   * The timeline of a session of loaded evidence holds exactly the entries that belong there, strictly
   * ordered by lane and index in the source; this leaves one list.
   */
  lemma TimelineHoldsBelonging(w: Wording, e: Evidence, t: TimelineEntry)
    requires Speaks(w) && Loaded(e)
    ensures t in Session(w, e).timeline <==> Belongs(e, t)
    ensures Strict(Session(w, e).timeline)
  {
    hide Session, TelemetryTimeline, AlarmTimeline, LinkTimeline, RowEntryAt, AlarmEntryAt, LinkEntryAt,
      AlarmEvents.AcceptedLog, LinkEvents.AcceptedLog, SightingsOf;
    TimelineInOrder(e);
    NormalizationSucceeds(w, e);
    if e.telemetry.Some? {
      RowEntries(e.telemetry.value.records, t);
    }
    if e.alarm.Some? {
      AcceptedAlarmsNumbered(e.alarm.value.records);
      NoRowsSighted(0);
      AlarmEntriesListed(RecordsIn(e), e.alarm.value.records, t);
    }
    if e.link.Some? {
      AcceptedLinkNumbered(e.link.value.records);
      LinkEntriesListed(e.link.value.records, t);
    }
  }

  // ---------- the summaries ----------

  function CountCode(ds: seq<Diagnostic>, c: DiagnosticCode): nat {
    if ds == [] then 0
    else CountCode(ds[..|ds| - 1], c) + (if ds[|ds| - 1].code == c then 1 else 0)
  }

  lemma {:induction false} CountJoin(a: seq<Diagnostic>, b: seq<Diagnostic>, c: DiagnosticCode)
    ensures CountCode(a + b, c) == CountCode(a, c) + CountCode(b, c)
  {
    if b == [] {
      assert a + b == a;
    } else {
      assert (a + b)[..|a + b| - 1] == a + b[..|b| - 1];
      CountJoin(a, b[..|b| - 1], c);
    }
  }

  lemma CountOne(d: Diagnostic, c: DiagnosticCode)
    ensures CountCode([d], c) == if d.code == c then 1 else 0
  {
    assert [d][..0] == [];
  }

  lemma CountWithout(b: seq<Diagnostic>, k: nat, c: DiagnosticCode)
    requires k < |b|
    ensures var rest := b[..k] + b[k + 1..];
      && multiset(b) == multiset(rest) + multiset{b[k]}
      && CountCode(b, c) == CountCode(rest, c) + (if b[k].code == c then 1 else 0)
  {
    hide CountCode;
    assert b == b[..k] + [b[k]] + b[k + 1..];
    CountJoin(b[..k] + [b[k]], b[k + 1..], c);
    CountJoin(b[..k], [b[k]], c);
    CountJoin(b[..k], b[k + 1..], c);
    CountOne(b[k], c);
  }

  lemma SameRest<T>(a: multiset<T>, b: multiset<T>, x: T)
    requires a + multiset{x} == b + multiset{x}
    ensures a == b
  {
    assert (a + multiset{x}) - multiset{x} == a;
    assert (b + multiset{x}) - multiset{x} == b;
  }

  lemma {:induction false} CountPermuted(a: seq<Diagnostic>, b: seq<Diagnostic>, c: DiagnosticCode)
    requires multiset(a) == multiset(b)
    ensures CountCode(a, c) == CountCode(b, c)
  {
    hide CountCode;
    if a == [] {
      assert |multiset(b)| == 0;
    } else {
      var n := |a| - 1;
      CountWithout(a, n, c);
      assert a[..n] + a[n + 1..] == a[..n];
      assert a[n] in multiset(b);
      var k :| 0 <= k < |b| && b[k] == a[n];
      var rest := b[..k] + b[k + 1..];
      CountWithout(b, k, c);
      SameRest(multiset(a[..n]), multiset(rest), a[n]);
      CountPermuted(a[..n], rest, c);
    }
  }

  lemma {:induction false} CountOfKind(
    ds: seq<Diagnostic>, lane: EvidenceLane, codes: set<DiagnosticCode>, c: DiagnosticCode)
    requires Kind(ds, lane, codes)
    ensures c !in codes ==> CountCode(ds, c) == 0
    ensures codes == {c} ==> CountCode(ds, c) == |ds|
  {
    if ds == [] {
    } else {
      var n := |ds| - 1;
      assert Kind(ds[..n], lane, codes);
      CountOfKind(ds[..n], lane, codes, c);
      assert ds[n].code in codes;
    }
  }

  function AlarmPart(w: Wording, e: Evidence): seq<Diagnostic> {
    if e.alarm.Some? then AlarmDiagnostics(w, DecodedIn(e), e.alarm.value.records) else [MissingNote(w, AlarmLane)]
  }

  function LinkPart(w: Wording, e: Evidence): seq<Diagnostic> {
    if e.link.Some? then LinkDiagnostics(w, e.link.value.records) else [MissingNote(w, LinkLane)]
  }

  lemma AlarmPartCounted(w: Wording, e: Evidence, c: DiagnosticCode)
    requires Speaks(w) && Loaded(e) && (c == TelemetryPacketRejected || c == TelemetrySequenceGap)
    ensures CountCode(AlarmPart(w, e), c) == 0
  {
    hide AlarmDiagnostics, AlarmEvents.AcceptedLog, LinkEvents.AcceptedLog, CountCode, DistinctTags, SightingsOf;
    if e.alarm.Some? {
      if e.telemetry.Some? { DecodedRise(e.telemetry.value.records); }
      AcceptedAlarmsNumbered(e.alarm.value.records);
      AlarmClean(w, DecodedIn(e), e.alarm.value.records);
      CountOfKind(AlarmPart(w, e), AlarmLane, ALARM_CODES, c);
    } else {
      MissingClean(w, AlarmLane);
      CountOfKind(AlarmPart(w, e), AlarmLane, {SourceNotProvided}, c);
    }
  }

  lemma LinkPartCounted(w: Wording, e: Evidence, c: DiagnosticCode)
    requires Speaks(w) && Loaded(e) && (c == TelemetryPacketRejected || c == TelemetrySequenceGap)
    ensures CountCode(LinkPart(w, e), c) == 0
  {
    hide LinkDiagnostics, AlarmEvents.AcceptedLog, LinkEvents.AcceptedLog, CountCode, DistinctTags;
    if e.link.Some? {
      AcceptedLinkNumbered(e.link.value.records);
      LinkClean(w, e.link.value.records);
      CountOfKind(LinkPart(w, e), LinkLane, LINK_CODES, c);
    } else {
      MissingClean(w, LinkLane);
      CountOfKind(LinkPart(w, e), LinkLane, {SourceNotProvided}, c);
    }
  }

  lemma FindingsCounted(w: Wording, e: Evidence, c: DiagnosticCode)
    requires Speaks(w) && Loaded(e) && e.telemetry.Some?
    requires c == TelemetryPacketRejected || c == TelemetrySequenceGap
    ensures CountCode(Session(w, e).diagnostics, c) == CountCode(TelemetryDiagnostics(w, e.telemetry.value.records), c)
  {
    hide Session, TelemetryDiagnostics, AlarmDiagnostics, LinkDiagnostics, CountCode, Loaded, Speaks;
    var t, a, l := TelemetryDiagnostics(w, e.telemetry.value.records), AlarmPart(w, e), LinkPart(w, e);
    NormalizationSucceeds(w, e);
    assert Findings(w, e) == t + a + l;
    CountPermuted(Session(w, e).diagnostics, t + a + l, c);
    CountJoin(t + a, l, c);
    CountJoin(t, a, c);
    AlarmPartCounted(w, e, c);
    LinkPartCounted(w, e, c);
  }

  lemma TelemetryCounted(w: Wording, records: seq<RecordedTelemetryRecord>)
    requires Speaks(w) && Numbered(records)
    ensures CountCode(TelemetryDiagnostics(w, records), TelemetryPacketRejected) == |Rejections(w, records)|
    ensures CountCode(TelemetryDiagnostics(w, records), TelemetrySequenceGap) ==
      |GapDiagnostics(w, SightingsOf(records))|
  {
    hide Rejections, DuplicateDiagnostics, GapDiagnostics, SightingsOf, CountCode, EndNote;
    var s := SightingsOf(records);
    var a, b, c, d := Rejections(w, records), DuplicateDiagnostics(w, s), GapDiagnostics(w, s),
      EndNote(w, TelemetryLane, |records|, true);
    DecodedRise(records);
    RejectionsClean(w, records);
    DuplicatesAreAmong(w, s);
    DistinctAreAll(s);
    DuplicatesClean(w, s, DistinctSequences(s));
    GapsClean(w, s);
    EndNoteClean(w, TelemetryLane, |records|, true);
    forall code | code == TelemetryPacketRejected || code == TelemetrySequenceGap
      ensures CountCode(a + b + c + d, code) ==
        CountCode(a, code) + CountCode(b, code) + CountCode(c, code) + CountCode(d, code)
      ensures CountCode(b, code) == 0 && CountCode(d, code) == 0
      ensures code == TelemetryPacketRejected ==> CountCode(a, code) == |a| && CountCode(c, code) == 0
      ensures code == TelemetrySequenceGap ==> CountCode(a, code) == 0 && CountCode(c, code) == |c|
    {
      CountJoin(a + b + c, d, code);
      CountJoin(a + b, c, code);
      CountJoin(a, b, code);
      CountOfKind(a, TelemetryLane, {TelemetryPacketRejected}, code);
      CountOfKind(b, TelemetryLane, {TelemetrySequenceDuplicate}, code);
      CountOfKind(c, TelemetryLane, {TelemetrySequenceGap}, code);
      CountOfKind(d, TelemetryLane, {SourceEmpty, SourceSummaryMissing}, code);
    }
  }

  ghost function DecodedRows(records: seq<RecordedTelemetryRecord>): set<nat> {
    set k: nat | k < |records| && Decodes(records, k)
  }

  lemma {:induction false} RowsCounted(w: Wording, records: seq<RecordedTelemetryRecord>)
    ensures |SightingsOf(records)| == |DecodedRows(records)|
    ensures |Rejections(w, records)| == |records| - |DecodedRows(records)|
  {
    hide Codec.DecodePacket;
    if records == [] {
      assert DecodedRows(records) == {};
    } else {
      var n := |records| - 1;
      RowsCounted(w, records[..n]);
      if Decodes(records, n) {
        assert DecodedRows(records) == DecodedRows(records[..n]) + {n};
      } else {
        assert DecodedRows(records) == DecodedRows(records[..n]);
      }
    }
  }

  /** The different sequence numbers that the rows decode to. */
  ghost function SequencesIn(records: seq<RecordedTelemetryRecord>): set<int> {
    set k: nat | k in DecodedRows(records) :: SequenceAt(records, k)
  }

  lemma SequencesSighted(records: seq<RecordedTelemetryRecord>)
    requires Numbered(records)
    ensures (set q | q in Numbers(SightingsOf(records))) == SequencesIn(records)
  {
    hide Codec.DecodePacket, DecodedRecords;
    var ds, s := DecodedRecords(records), SightingsOf(records);
    DecodedNamesRows(records);
    forall q
      ensures q in Numbers(s) <==> q in SequencesIn(records)
    {
      if q in Numbers(s) {
        var m :| 0 <= m < |s| && s[m].sequence == q;
        assert ds[m] in ds && Names(records, ds[m]);
        assert ds[m].index in DecodedRows(records);
      }
      if q in SequencesIn(records) {
        var k :| k in DecodedRows(records) && SequenceAt(records, k) == q;
        var m := DecodedRowIsSighted(records, k);
        assert Numbers(s)[m] == q;
      }
    }
  }

  lemma RowsNumbered(e: Evidence)
    requires Loaded(e) && e.telemetry.Some?
    ensures Numbered(e.telemetry.value.records)
  {
  }

  /** A summary of these rows, in a session with these diagnostics. */
  ghost predicate TelemetryTold(
    name: string, rows: seq<RecordedTelemetryRecord>, ds: seq<Diagnostic>, s: LaneSummary)
  {
    && s.source == SourceDescriptor(
         TelemetryLane, name, |rows|, if rows == [] then Incomplete else Unknown, Some(1), None)
    && !s.summaryPresent && s.metadata == NoMetadata && s.counters.TelemetryCounters?
    && s.counters.recordsTotal == |rows|
    && s.counters.decoded == |DecodedRows(rows)|
    && s.counters.rejected == CountCode(ds, TelemetryPacketRejected) == |rows| - |DecodedRows(rows)|
    && s.counters.gaps == CountCode(ds, TelemetrySequenceGap)
    && s.counters.duplicates == |DecodedRows(rows)| - |SequencesIn(rows)|
  }

  /**
   * The telemetry summary of a session counts its rows, those that decode, the rejections and gaps that
   * the session reports, and how many decoded rows repeat a number.
   */
  lemma TelemetrySummaryTells(w: Wording, e: Evidence)
    requires Speaks(w) && Loaded(e) && e.telemetry.Some?
    ensures Session(w, e).sources != []
    ensures TelemetryTold(e.telemetry.value.name, e.telemetry.value.records, Session(w, e).diagnostics,
      Session(w, e).sources[0])
  {
    hide CountCode, TelemetryDiagnostics, DistinctSequences, GapCount, SightingsOf, Rejections, GapDiagnostics,
      AlarmSummary, LinkSummary, Timeline, Findings, Loaded, Speaks, SortBy, DecodedRows, SequencesIn;
    var rows := e.telemetry.value.records;
    RowsNumbered(e);
    FindingsCounted(w, e, TelemetryPacketRejected);
    FindingsCounted(w, e, TelemetrySequenceGap);
    TelemetryCounted(w, rows);
    RowsCounted(w, rows);
    GapsAreStated(w, SightingsOf(rows));
    DistinctCount(SightingsOf(rows));
    SequencesSighted(rows);
  }

  /** The source of an event log, and whether it is closed. */
  ghost predicate SourceTold(
    lane: EvidenceLane, name: string, count: nat, closed: bool, schema: Option<int>, sessionId: Option<string>,
    s: LaneSummary)
  {
    && s.source == SourceDescriptor(lane, name, count, if closed then Complete else Incomplete, schema, sessionId)
    && s.summaryPresent == closed
  }

  /** A summary of this alarm log. */
  ghost predicate AlarmTold(name: string, events: seq<AlarmEvents.AlarmEvent>, s: LaneSummary) {
    && s.counters.AlarmCounters?
    && s.counters.alarm.raised == |LogMeaning.AlarmsOf(events, AlarmEvents.AlarmRaised)|
    && s.counters.alarm.updated == |LogMeaning.AlarmsOf(events, AlarmEvents.AlarmUpdated)|
    && s.counters.alarm.cleared == |LogMeaning.AlarmsOf(events, AlarmEvents.AlarmCleared)|
    && if events == [] then SourceTold(AlarmLane, name, 0, false, None, None, s) && s.metadata == NoMetadata
       else
         && SourceTold(AlarmLane, name, |events|, events[|events| - 1].eventType == AlarmEvents.RunSummary,
              Some(1), Some(events[0].sessionId), s)
         && events[0].attributes.Metadata? && s.metadata == AlarmMetadata(events[0].attributes.metadata)
  }

  /** A summary of this link log. */
  ghost predicate LinkTold(name: string, events: seq<LinkEvents.LinkEvent>, s: LaneSummary) {
    && s.counters.LinkCounters?
    && var c := s.counters.link;
    && c.packetsReceived == |LogMeaning.LinkEventsOf(events, LinkEvents.PacketReceived)|
    && c.packetsDropped == |LogMeaning.LinkEventsOf(events, LinkEvents.PacketDropped)|
    && c.packetsDelayed == |LogMeaning.LinkEventsOf(events, LinkEvents.PacketDelayed)|
    && c.packetsDuplicated == |LogMeaning.LinkEventsOf(events, LinkEvents.PacketDuplicated)|
    && c.packetsCorrupted == |LogMeaning.LinkEventsOf(events, LinkEvents.PacketCorrupted)|
    && c.packetsReordered == |LogMeaning.LinkEventsOf(events, LinkEvents.PacketReordered)|
    && c.deliveriesScheduled == |LogMeaning.LinkEventsOf(events, LinkEvents.DeliveryScheduled)|
    && c.deliveriesForwarded == |LogMeaning.LinkEventsOf(events, LinkEvents.PacketForwarded)|
    && if events == [] then SourceTold(LinkLane, name, 0, false, None, None, s) && s.metadata == NoMetadata
       else
         && SourceTold(LinkLane, name, |events|, events[|events| - 1].eventType == LinkEvents.RunSummary,
              Some(events[0].schemaVersion), Some(events[0].sessionId), s)
         && s.metadata == if events[0].attributes.Metadata? then LinkMetadata(events[0].attributes.metadata)
                          else NoMetadata
  }

  lemma AlarmSummaryTold(name: string, events: seq<AlarmEvents.AlarmEvent>)
    requires AlarmEvents.AcceptedLog(events)
    ensures AlarmTold(name, events, AlarmSummary(name, events))
  {
    hide AlarmEvents.CountOf, LogMeaning.AlarmsOf;
    LogMeaning.AlarmsCounted(events, AlarmEvents.AlarmRaised);
    LogMeaning.AlarmsCounted(events, AlarmEvents.AlarmUpdated);
    LogMeaning.AlarmsCounted(events, AlarmEvents.AlarmCleared);
    if events != [] {
      assert AlarmEvents.EventFits(events, 0);
    }
  }

  lemma LinkSummaryTold(name: string, events: seq<LinkEvents.LinkEvent>)
    requires LinkEvents.AcceptedLog(events)
    ensures LinkTold(name, events, LinkSummary(name, events))
  {
    hide LinkEvents.CountOf, LogMeaning.LinkEventsOf;
    LogMeaning.LinkEventsCounted(events, LinkEvents.PacketReceived);
    LogMeaning.LinkEventsCounted(events, LinkEvents.PacketDropped);
    LogMeaning.LinkEventsCounted(events, LinkEvents.PacketDelayed);
    LogMeaning.LinkEventsCounted(events, LinkEvents.PacketDuplicated);
    LogMeaning.LinkEventsCounted(events, LinkEvents.PacketCorrupted);
    LogMeaning.LinkEventsCounted(events, LinkEvents.PacketReordered);
    LogMeaning.LinkEventsCounted(events, LinkEvents.DeliveryScheduled);
    LogMeaning.LinkEventsCounted(events, LinkEvents.PacketForwarded);
    if events != [] {
      assert LinkEvents.EventFits(events, 0);
    }
  }

  /** The summary of a lane without a source. */
  ghost predicate NothingTold(lane: EvidenceLane, s: LaneSummary) {
    && s.source == SourceDescriptor(lane, "<not provided>", 0, Incomplete, None, None)
    && !s.summaryPresent && s.metadata == NoMetadata
    && match s.counters
       case TelemetryCounters(total, decoded, rejected, gaps, duplicates) =>
         lane == TelemetryLane && total == decoded == rejected == gaps == duplicates == 0
       case AlarmCounters(c) => lane == AlarmLane && c.raised == c.updated == c.cleared == 0
       case LinkCounters(c) =>
         && lane == LinkLane
         && c.packetsReceived == c.packetsDropped == c.packetsDelayed == c.packetsDuplicated == 0
         && c.packetsCorrupted == c.packetsReordered == c.deliveriesScheduled == c.deliveriesForwarded == 0
  }

  /** The three summaries of a session of loaded evidence, in the order telemetry, alarms, link. */
  lemma SummariesTell(w: Wording, e: Evidence)
    requires Speaks(w) && Loaded(e)
    ensures |Session(w, e).sources| == 3
    ensures var s := Session(w, e).sources;
      && (if e.telemetry.Some?
          then TelemetryTold(e.telemetry.value.name, e.telemetry.value.records, Session(w, e).diagnostics, s[0])
          else NothingTold(TelemetryLane, s[0]))
      && (if e.alarm.Some? then AlarmTold(e.alarm.value.name, e.alarm.value.records, s[1])
          else NothingTold(AlarmLane, s[1]))
      && (if e.link.Some? then LinkTold(e.link.value.name, e.link.value.records, s[2])
          else NothingTold(LinkLane, s[2]))
  {
    hide TelemetryTold, AlarmTold, LinkTold, TelemetrySummary, AlarmSummary, LinkSummary, Timeline, Findings, SortBy,
      AlarmEvents.AcceptedLog, LinkEvents.AcceptedLog;
    if e.telemetry.Some? { TelemetrySummaryTells(w, e); }
    if e.alarm.Some? { AlarmSummaryTold(e.alarm.value.name, e.alarm.value.records); }
    if e.link.Some? { LinkSummaryTold(e.link.value.name, e.link.value.records); }
  }
}
