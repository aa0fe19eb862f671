/** Normalization satisfies the checks of every record it builds, and repeats no diagnostic. */
module SessionValidity {
  import opened Wrappers
  import opened Correlation
  import opened Inspection
  import opened SequenceInspection
  import opened SessionModels
  import opened TelemetryRecording
  import AlarmEvents
  import Codec
  import LinkEvents
  import Texts

  // ---------- diagnostics are distinct ----------

  /** Where a diagnostic points, and what it says. */
  function Tag(d: Diagnostic): (Option<EvidenceLane>, Option<int>, DiagnosticCode) {
    (d.lane, d.sourceIndex, d.code)
  }

  ghost predicate DistinctTags(s: seq<Diagnostic>) {
    forall j, k :: 0 <= j < k < |s| ==> Tag(s[j]) != Tag(s[k])
  }

  /** Valid diagnostics of one lane with the given codes. */
  ghost predicate Kind(s: seq<Diagnostic>, lane: EvidenceLane, codes: set<DiagnosticCode>) {
    forall k :: 0 <= k < |s| ==> s[k].Valid() && s[k].lane == Some(lane) && s[k].code in codes
  }

  ghost predicate Clean(s: seq<Diagnostic>, lane: EvidenceLane, codes: set<DiagnosticCode>) {
    Kind(s, lane, codes) && DistinctTags(s)
  }

  lemma JoinKinds(
    a: seq<Diagnostic>, b: seq<Diagnostic>, lane: EvidenceLane, x: set<DiagnosticCode>, y: set<DiagnosticCode>)
    requires Clean(a, lane, x) && Clean(b, lane, y) && x !! y
    ensures Clean(a + b, lane, x + y)
  {
    hide Diagnostic.Valid;
    forall j, k | 0 <= j < k < |a + b|
      ensures Tag((a + b)[j]) != Tag((a + b)[k])
    {
      if j < |a| <= k { assert a[j].code in x && b[k - |a|].code in y; }
    }
  }

  /** Diagnostics in ascending source order within one lane. */
  ghost predicate IndexAscending(s: seq<Diagnostic>, bound: int) {
    && (forall k :: 0 <= k < |s| ==> s[k].sourceIndex.Some? && s[k].sourceIndex.value < bound)
    && forall j, k :: 0 <= j < k < |s| ==> s[j].sourceIndex.value < s[k].sourceIndex.value
  }

  lemma AscendingTags(s: seq<Diagnostic>, bound: int)
    requires IndexAscending(s, bound)
    ensures DistinctTags(s)
  {
  }

  lemma CleanAppend(s: seq<Diagnostic>, d: Diagnostic, lane: EvidenceLane, codes: set<DiagnosticCode>, bound: int)
    requires Kind(s, lane, codes) && IndexAscending(s, bound)
    requires d.Valid() && d.lane == Some(lane) && d.code in codes && d.sourceIndex.Some?
    requires bound <= d.sourceIndex.value
    ensures Kind(s + [d], lane, codes) && IndexAscending(s + [d], d.sourceIndex.value + 1)
  {
    hide Diagnostic.Valid;
  }

  lemma NothingClean(lane: EvidenceLane, codes: set<DiagnosticCode>)
    ensures Kind([], lane, codes) && IndexAscending([], 0)
  {
  }

  lemma IndexBound(s: seq<Diagnostic>, bound: int, higher: int)
    requires IndexAscending(s, bound) && bound <= higher
    ensures IndexAscending(s, higher)
  {
  }

  lemma PlainIsValid(w: Wording, m: Message, code: DiagnosticCode, lane: EvidenceLane, index: nat)
    requires Speaks(w)
    ensures Diagnostic(code, Warning, w(m), Some(lane), Some(index), None, []).Valid()
  {
  }

  lemma {:induction false} RejectionsClean(w: Wording, records: seq<RecordedTelemetryRecord>)
    requires Speaks(w) && Numbered(records)
    ensures Kind(Rejections(w, records), TelemetryLane, {TelemetryPacketRejected})
    ensures IndexAscending(Rejections(w, records), |records|)
  {
    hide Codec.DecodePacket, Kind, IndexAscending, Diagnostic.Valid;
    if records == [] {
      NothingClean(TelemetryLane, {TelemetryPacketRejected});
    } else {
      var init, last := records[..|records| - 1], records[|records| - 1];
      RejectionsClean(w, init);
      IndexBound(Rejections(w, init), |init|, |records|);
      var decoded := Codec.DecodePacket(last.packet);
      if decoded.Failure? {
        PlainIsValid(w, Rejected(last.recordIndex, decoded.error), TelemetryPacketRejected, TelemetryLane, |init|);
        CleanAppend(Rejections(w, init), Rejection(w, last.recordIndex, decoded.error), TelemetryLane,
          {TelemetryPacketRejected}, |init|);
      } else {
        assert Rejections(w, init) + [] == Rejections(w, init);
      }
    }
  }

  ghost predicate Rising(s: seq<Sighting>) {
    forall j, k :: 0 <= j < k < |s| ==> s[j].index < s[k].index
  }

  lemma {:induction false} IndicesRise(s: seq<Sighting>, q: int)
    requires Rising(s)
    ensures Ascending(IndicesWith(s, q))
    ensures forall x :: x in IndicesWith(s, q) ==> exists k :: 0 <= k < |s| && s[k] == Sighting(x, q)
  {
    if s == [] {
    } else {
      var init, last := s[..|s| - 1], s[|s| - 1];
      IndicesRise(init, q);
      forall x | x in IndicesWith(s, q)
        ensures exists k :: 0 <= k < |s| && s[k] == Sighting(x, q)
      {
        if x in IndicesWith(init, q) {
          var k :| 0 <= k < |init| && init[k] == Sighting(x, q);
          assert s[k] == Sighting(x, q);
        } else {
          assert s[|init|] == Sighting(x, q);
        }
      }
      if last.sequence == q {
        AscendingAppend(IndicesWith(init, q), last.index);
      }
    }
  }

  lemma DuplicateIsValid(w: Wording, s: seq<Sighting>, q: int)
    requires Speaks(w) && Rising(s) && |IndicesWith(s, q)| >= 2
    ensures DuplicateFor(w, s, q).Valid()
  {
    hide Texts.ValidText, IndicesWith;
    IndicesRise(s, q);
  }

  /** Different sequences have different first rows. */
  lemma FirstRowsDiffer(s: seq<Sighting>, p: int, q: int)
    requires Rising(s) && p != q && IndicesWith(s, p) != [] && IndicesWith(s, q) != []
    ensures IndicesWith(s, p)[0] != IndicesWith(s, q)[0]
  {
    IndicesRise(s, p);
    IndicesRise(s, q);
    var x, y := IndicesWith(s, p)[0], IndicesWith(s, q)[0];
    assert x in IndicesWith(s, p) && y in IndicesWith(s, q);
    var j :| 0 <= j < |s| && s[j] == Sighting(x, p);
    var k :| 0 <= k < |s| && s[k] == Sighting(y, q);
  }

  lemma {:induction false} DuplicatesClean(w: Wording, s: seq<Sighting>, qs: seq<int>)
    requires Speaks(w) && Rising(s) && Ascending(qs)
    ensures Clean(DuplicatesAmong(w, s, qs), TelemetryLane, {TelemetrySequenceDuplicate})
  {
    hide Texts.ValidText, IndicesWith, Diagnostic.Valid;
    if qs == [] {
    } else {
      var init, q := qs[..|qs| - 1], qs[|qs| - 1];
      DuplicatesClean(w, s, init);
      if |IndicesWith(s, q)| >= 2 {
        DuplicateIsValid(w, s, q);
        var ds := DuplicatesAmong(w, s, init);
        forall k | 0 <= k < |ds|
          ensures Tag(ds[k]) != Tag(DuplicateFor(w, s, q))
        {
          DuplicateListed(w, s, init, ds[k]);
          var p :| p in init && |IndicesWith(s, p)| >= 2 && ds[k] == DuplicateFor(w, s, p);
          assert exists m :: 0 <= m < |init| && init[m] == p;
          FirstRowsDiffer(s, p, q);
        }
      }
    }
  }

  lemma GapIsValid(w: Wording, previous: Sighting, current: Sighting)
    requires Speaks(w) && previous.index < current.index
    ensures var d := GapFor(w, previous, current);
      && d.Valid() && d.lane == Some(TelemetryLane) && d.code == TelemetrySequenceGap
      && d.sourceIndex == Some(current.index)
  {
  }

  lemma {:induction false} GapsClean(w: Wording, s: seq<Sighting>)
    requires Speaks(w) && Rising(s)
    ensures Kind(GapDiagnostics(w, s), TelemetryLane, {TelemetrySequenceGap})
    ensures IndexAscending(GapDiagnostics(w, s), if s == [] then 0 else s[|s| - 1].index + 1)
  {
    hide Kind, IndexAscending, Diagnostic.Valid, GapFor, IsGap;
    if |s| < 2 {
      NothingClean(TelemetryLane, {TelemetrySequenceGap});
      IndexBound([], 0, if s == [] then 0 else s[|s| - 1].index + 1);
    } else {
      var n := |s| - 1;
      GapsClean(w, s[..n]);
      GapIsValid(w, s[n - 1], s[n]);
      IndexBound(GapDiagnostics(w, s[..n]), s[n - 1].index + 1, s[n].index + 1);
      if IsGap(s[n - 1].sequence, s[n].sequence) {
        CleanAppend(GapDiagnostics(w, s[..n]), GapFor(w, s[n - 1], s[n]), TelemetryLane, {TelemetrySequenceGap},
          s[n - 1].index + 1);
      } else {
        assert GapDiagnostics(w, s[..n]) + [] == GapDiagnostics(w, s[..n]);
      }
    }
  }

  lemma EndNoteClean(w: Wording, lane: EvidenceLane, count: nat, closed: bool)
    requires Speaks(w)
    ensures Clean(EndNote(w, lane, count, closed), lane, {SourceEmpty, SourceSummaryMissing})
  {
  }

  lemma DecodedRise(records: seq<RecordedTelemetryRecord>)
    requires Numbered(records)
    ensures Rising(SightingsOf(records)) && SequencesInRange(SightingsOf(records))
  {
    DecodedNamesRows(records);
    DecodedInRange(records);
    var ds := DecodedRecords(records);
    forall k | 0 <= k < |ds|
      ensures Codec.Unsigned32(SightingsOf(records)[k].sequence)
    {
      assert Codec.ValidatePacket(ds[k].packet) == None;
    }
  }

  const TELEMETRY_CODES: set<DiagnosticCode> := {
    TelemetryPacketRejected, TelemetrySequenceDuplicate, TelemetrySequenceGap, SourceEmpty, SourceSummaryMissing }
  const ALARM_CODES: set<DiagnosticCode> := {
    AlarmCorrelationAmbiguous, AlarmCorrelationImpossible, SourceEmpty, SourceSummaryMissing }
  const LINK_CODES: set<DiagnosticCode> := { LinkCorruptionObserved, SourceEmpty, SourceSummaryMissing }

  lemma DuplicatesAreAmong(w: Wording, s: seq<Sighting>)
    ensures DuplicateDiagnostics(w, s) == DuplicatesAmong(w, s, DistinctSequences(s))
  {
  }

  lemma TelemetryClean(w: Wording, records: seq<RecordedTelemetryRecord>)
    requires Speaks(w) && Numbered(records)
    ensures Clean(TelemetryDiagnostics(w, records), TelemetryLane, TELEMETRY_CODES)
  {
    hide Kind, DistinctTags, Rejections, DuplicateDiagnostics, DuplicatesAmong, GapDiagnostics, EndNote;
    var s := SightingsOf(records);
    var a, c := Rejections(w, records), GapDiagnostics(w, s);
    var b := DuplicateDiagnostics(w, s);
    DecodedRise(records);
    RejectionsClean(w, records);
    AscendingTags(a, |records|);
    DistinctAreAll(s);
    DuplicatesAreAmong(w, s);
    DuplicatesClean(w, s, DistinctSequences(s));
    var x, y, z := {TelemetryPacketRejected}, {TelemetrySequenceDuplicate}, {TelemetrySequenceGap};
    var t := {SourceEmpty, SourceSummaryMissing};
    JoinKinds(a, b, TelemetryLane, x, y);
    GapsClean(w, s);
    AscendingTags(c, if s == [] then 0 else s[|s| - 1].index + 1);
    JoinKinds(a + b, c, TelemetryLane, x + y, z);
    EndNoteClean(w, TelemetryLane, |records|, true);
    JoinKinds(a + b + c, EndNote(w, TelemetryLane, |records|, true), TelemetryLane, x + y + z, t);
    assert x + y + z + t == TELEMETRY_CODES;
  }

  /** Event `k` of an alarm log is well shaped and numbered `k`. */
  ghost predicate AlarmsNumbered(events: seq<AlarmEvents.AlarmEvent>) {
    forall k {:trigger events[k]} :: 0 <= k < |events| ==>
      AlarmEvents.EventShape(events[k]) && events[k].eventIndex == k
  }

  ghost predicate LinkNumbered(events: seq<LinkEvents.LinkEvent>) {
    forall k {:trigger events[k]} :: 0 <= k < |events| ==>
      LinkEvents.EventShape(events[k]) && events[k].eventIndex == k
  }

  lemma AcceptedAlarmsNumbered(events: seq<AlarmEvents.AlarmEvent>)
    requires AlarmEvents.AcceptedLog(events)
    ensures AlarmsNumbered(events) && AlarmsInRange(events)
  {
    forall k | 0 <= k < |events|
      ensures AlarmEvents.EventShape(events[k]) && events[k].eventIndex == k
    {
      assert AlarmEvents.EventFits(events, k);
    }
  }

  lemma AcceptedLinkNumbered(events: seq<LinkEvents.LinkEvent>)
    requires LinkEvents.AcceptedLog(events)
    ensures LinkNumbered(events)
  {
    forall k | 0 <= k < |events|
      ensures LinkEvents.EventShape(events[k]) && events[k].eventIndex == k
    {
      assert LinkEvents.EventFits(events, k);
    }
  }

  lemma FindingIsValid(w: Wording, s: seq<Sighting>, e: AlarmEvents.AlarmEvent)
    requires Speaks(w) && Rising(s) && Alarmed(e) && e.eventIndex >= 0
    ensures var f := AlarmFinding(w, s, e);
      && |f| <= 1
      && Kind(f, AlarmLane, {AlarmCorrelationAmbiguous, AlarmCorrelationImpossible})
      && (f != [] ==> f[0].sourceIndex == Some(e.eventIndex))
  {
    hide Texts.ValidText, IndicesWith;
    IndicesRise(s, e.packetSequence.value);
  }

  lemma KindOfFirst(s: seq<Diagnostic>, lane: EvidenceLane, codes: set<DiagnosticCode>)
    requires s != [] && Kind(s, lane, codes)
    ensures s[0].Valid() && s[0].lane == Some(lane) && s[0].code in codes
  {
  }

  lemma {:induction false} AlarmFindingsClean(w: Wording, s: seq<Sighting>, events: seq<AlarmEvents.AlarmEvent>)
    requires Speaks(w) && Rising(s) && AlarmsNumbered(events)
    ensures Kind(AlarmFindings(w, s, events), AlarmLane, {AlarmCorrelationAmbiguous, AlarmCorrelationImpossible})
    ensures IndexAscending(AlarmFindings(w, s, events), |events|)
  {
    hide AlarmFinding, AlarmEvents.EventShape, Diagnostic.Valid, Kind, IndexAscending;
    var codes := {AlarmCorrelationAmbiguous, AlarmCorrelationImpossible};
    if events == [] {
      NothingClean(AlarmLane, codes);
    } else {
      var init, last := events[..|events| - 1], events[|events| - 1];
      AlarmFindingsClean(w, s, init);
      var older := AlarmFindings(w, s, init);
      IndexBound(older, |init|, |events|);
      assert older + [] == older;
      if Alarmed(last) {
        FindingIsValid(w, s, last);
        var found := AlarmFinding(w, s, last);
        if found != [] {
          assert found == [found[0]];
          KindOfFirst(found, AlarmLane, codes);
          CleanAppend(older, found[0], AlarmLane, codes, |init|);
        }
      }
    }
  }

  lemma AlarmClean(w: Wording, s: seq<Sighting>, events: seq<AlarmEvents.AlarmEvent>)
    requires Speaks(w) && Rising(s) && AlarmsNumbered(events)
    ensures Clean(AlarmDiagnostics(w, s, events), AlarmLane, ALARM_CODES)
  {
    hide Kind, DistinctTags, AlarmFindings, EndNote;
    var x, t := {AlarmCorrelationAmbiguous, AlarmCorrelationImpossible}, {SourceEmpty, SourceSummaryMissing};
    AlarmFindingsClean(w, s, events);
    AscendingTags(AlarmFindings(w, s, events), |events|);
    EndNoteClean(w, AlarmLane, |events|, AlarmEvents.HasSummary(events));
    JoinKinds(AlarmFindings(w, s, events), EndNote(w, AlarmLane, |events|, AlarmEvents.HasSummary(events)),
      AlarmLane, x, t);
    assert x + t == ALARM_CODES;
  }

  lemma {:induction false} LinkFindingsClean(w: Wording, events: seq<LinkEvents.LinkEvent>)
    requires Speaks(w) && LinkNumbered(events)
    ensures Kind(LinkFindings(w, events), LinkLane, {LinkCorruptionObserved})
    ensures IndexAscending(LinkFindings(w, events), |events|)
  {
    hide LinkEvents.EventShape, Kind, IndexAscending, Diagnostic.Valid;
    if events == [] {
      NothingClean(LinkLane, {LinkCorruptionObserved});
    } else {
      var init, last := events[..|events| - 1], events[|events| - 1];
      LinkFindingsClean(w, init);
      IndexBound(LinkFindings(w, init), |init|, |events|);
      if last.eventType == LinkEvents.PacketCorrupted {
        PlainIsValid(w, Corruption(last.packetIndex), LinkCorruptionObserved, LinkLane, |init|);
        CleanAppend(LinkFindings(w, init), LinkFinding(w, last), LinkLane, {LinkCorruptionObserved}, |init|);
      } else {
        assert LinkFindings(w, init) + [] == LinkFindings(w, init);
      }
    }
  }

  lemma LinkClean(w: Wording, events: seq<LinkEvents.LinkEvent>)
    requires Speaks(w) && LinkNumbered(events)
    ensures Clean(LinkDiagnostics(w, events), LinkLane, LINK_CODES)
  {
    hide Kind, DistinctTags, LinkFindings, EndNote;
    var x, t := {LinkCorruptionObserved}, {SourceEmpty, SourceSummaryMissing};
    LinkFindingsClean(w, events);
    AscendingTags(LinkFindings(w, events), |events|);
    EndNoteClean(w, LinkLane, |events|, LinkHasSummary(events));
    JoinKinds(LinkFindings(w, events), EndNote(w, LinkLane, |events|, LinkHasSummary(events)), LinkLane, x, t);
    assert x + t == LINK_CODES;
  }

  lemma MissingClean(w: Wording, lane: EvidenceLane)
    requires Speaks(w)
    ensures Clean([MissingNote(w, lane)], lane, {SourceNotProvided})
  {
  }

  /** Every code that normalization uses. */
  ghost predicate Sound(s: seq<Diagnostic>) {
    forall k :: 0 <= k < |s| ==> s[k].Valid() && s[k].code != TimelineTruncated
  }

  lemma JoinLanes(
    a: seq<Diagnostic>, b: seq<Diagnostic>, c: seq<Diagnostic>, x: set<DiagnosticCode>, y: set<DiagnosticCode>,
    z: set<DiagnosticCode>)
    requires Clean(a, TelemetryLane, x) && Clean(b, AlarmLane, y) && Clean(c, LinkLane, z)
    requires TimelineTruncated !in x && TimelineTruncated !in y && TimelineTruncated !in z
    ensures DistinctTags(a + b + c) && Sound(a + b + c)
  {
    hide Diagnostic.Valid;
    var all := a + b + c;
    forall k | 0 <= k < |all|
      ensures all[k].Valid() && all[k].code != TimelineTruncated
      ensures all[k].lane ==
        Some(if k < |a| then TelemetryLane else if k < |a| + |b| then AlarmLane else LinkLane)
    {
    }
    forall j, k | 0 <= j < k < |all|
      ensures Tag(all[j]) != Tag(all[k])
    {
      if k < |a| {
        assert Tag(a[j]) != Tag(a[k]);
      } else if |a| <= j && k < |a| + |b| {
        assert Tag(b[j - |a|]) != Tag(b[k - |a|]);
      } else if |a| + |b| <= j {
        assert Tag(c[j - |a| - |b|]) != Tag(c[k - |a| - |b|]);
      }
    }
  }

  /** No two findings of a session point to the same place and say the same. */
  lemma FindingsDistinct(w: Wording, e: Evidence)
    requires Speaks(w) && Loaded(e)
    ensures DistinctTags(Findings(w, e)) && Sound(Findings(w, e))
  {
    hide Kind, DistinctTags, TelemetryDiagnostics, AlarmDiagnostics, LinkDiagnostics, MissingNote,
      AlarmEvents.AcceptedLog, LinkEvents.AcceptedLog;
    var x, y, z := {SourceNotProvided}, {SourceNotProvided}, {SourceNotProvided};
    MissingClean(w, TelemetryLane);
    MissingClean(w, AlarmLane);
    MissingClean(w, LinkLane);
    if e.telemetry.Some? {
      TelemetryClean(w, e.telemetry.value.records);
      DecodedRise(e.telemetry.value.records);
      x := TELEMETRY_CODES;
    }
    if e.alarm.Some? {
      AcceptedAlarmsNumbered(e.alarm.value.records);
      AlarmClean(w, DecodedIn(e), e.alarm.value.records);
      y := ALARM_CODES;
    }
    if e.link.Some? {
      AcceptedLinkNumbered(e.link.value.records);
      LinkClean(w, e.link.value.records);
      z := LINK_CODES;
    }
    JoinLanes(
      if e.telemetry.Some? then TelemetryDiagnostics(w, e.telemetry.value.records) else [MissingNote(w, TelemetryLane)],
      if e.alarm.Some? then AlarmDiagnostics(w, DecodedIn(e), e.alarm.value.records) else [MissingNote(w, AlarmLane)],
      if e.link.Some? then LinkDiagnostics(w, e.link.value.records) else [MissingNote(w, LinkLane)], x, y, z);
  }
}
