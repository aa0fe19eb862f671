/** What a session's verdicts mean: when it is incomplete, and when it is incompatible. */
module SessionVerdicts {
  import opened Correlation
  import opened Inspection
  import opened Ordering
  import opened SequenceInspection
  import opened SessionModels
  import opened TelemetryRecording
  import AlarmEvents
  import LinkEvents

  /** Every lane is there, has records, and is closed if its contract has a closing record. */
  predicate AllComplete(e: Evidence) {
    && e.telemetry.Some? && e.telemetry.value.records != []
    && e.alarm.Some? && AlarmEvents.HasSummary(e.alarm.value.records)
    && e.link.Some? && LinkHasSummary(e.link.value.records)
  }

  lemma LaneCompleteness(e: Evidence)
    ensures var s := Summaries(e);
      && |s| == 3
      && (s[0].source.completeness == Incomplete <==> !(e.telemetry.Some? && e.telemetry.value.records != []))
      && (s[1].source.completeness == Incomplete <==> !(e.alarm.Some? && AlarmEvents.HasSummary(e.alarm.value.records)))
      && (s[2].source.completeness == Incomplete <==> !(e.link.Some? && LinkHasSummary(e.link.value.records)))
  {
    hide SightingsOf, DistinctSequences, GapCount, AlarmEvents.StatisticsOf, LinkEvents.StatisticsOf;
  }

  lemma IncompleteMeans(w: Wording, e: Evidence)
    ensures Session(w, e).HasIncompleteSources() <==> !AllComplete(e)
  {
    hide Timeline, Findings, SortBy, Summaries;
    var s := Summaries(e);
    LaneCompleteness(e);
    assert Session(w, e).sources == s;
    assert s[0] in s && s[1] in s && s[2] in s;
  }

  // ---------- compatibility ----------

  ghost predicate Mild(s: seq<Diagnostic>) {
    forall k :: 0 <= k < |s| ==> s[k].severity != Error
  }

  lemma {:induction false} RejectionsMild(w: Wording, records: seq<RecordedTelemetryRecord>)
    ensures Mild(Rejections(w, records))
  {
    if records == [] {
    } else {
      RejectionsMild(w, records[..|records| - 1]);
    }
  }

  lemma {:induction false} DuplicatesMild(w: Wording, s: seq<Sighting>, qs: seq<int>)
    ensures Mild(DuplicatesAmong(w, s, qs))
  {
    if qs == [] {
    } else {
      DuplicatesMild(w, s, qs[..|qs| - 1]);
    }
  }

  lemma {:induction false} GapsMild(w: Wording, s: seq<Sighting>)
    ensures Mild(GapDiagnostics(w, s))
  {
    if |s| < 2 {
    } else {
      GapsMild(w, s[..|s| - 1]);
    }
  }

  lemma {:induction false} LinkMild(w: Wording, events: seq<LinkEvents.LinkEvent>)
    ensures Mild(LinkFindings(w, events))
  {
    if events == [] {
    } else {
      LinkMild(w, events[..|events| - 1]);
    }
  }

  lemma TelemetryMild(w: Wording, records: seq<RecordedTelemetryRecord>)
    ensures Mild(TelemetryDiagnostics(w, records))
  {
    hide Rejections, DuplicatesAmong, GapDiagnostics, DistinctSequences, SightingsOf;
    RejectionsMild(w, records);
    DuplicatesMild(w, SightingsOf(records), DistinctSequences(SightingsOf(records)));
    GapsMild(w, SightingsOf(records));
  }

  /** An alarm whose sequence occurs in more than one decoded row. */
  ghost predicate Doubtful(s: seq<Sighting>, events: seq<AlarmEvents.AlarmEvent>) {
    exists k :: 0 <= k < |events| && Alarmed(events[k]) && |IndicesWith(s, events[k].packetSequence.value)| >= 2
  }

  lemma NothingDoubtful(s: seq<Sighting>)
    ensures !Doubtful(s, [])
  {
  }

  lemma FindingMild(w: Wording, s: seq<Sighting>, e: AlarmEvents.AlarmEvent)
    requires Alarmed(e)
    ensures Mild(AlarmFinding(w, s, e)) <==> |IndicesWith(s, e.packetSequence.value)| < 2
  {
    hide IndicesWith;
    if |IndicesWith(s, e.packetSequence.value)| >= 2 {
      assert AlarmFinding(w, s, e)[0].severity == Error;
    }
  }

  lemma MildConcat(a: seq<Diagnostic>, b: seq<Diagnostic>)
    ensures Mild(a + b) <==> Mild(a) && Mild(b)
  {
    if Mild(a + b) {
      assert forall k :: 0 <= k < |a| ==> a[k] == (a + b)[k];
      assert forall k :: 0 <= k < |b| ==> b[k] == (a + b)[|a| + k];
    }
  }

  lemma DoubtfulStep(s: seq<Sighting>, events: seq<AlarmEvents.AlarmEvent>)
    requires events != []
    ensures var last := events[|events| - 1];
      Doubtful(s, events) <==>
      Doubtful(s, events[..|events| - 1]) || (Alarmed(last) && |IndicesWith(s, last.packetSequence.value)| >= 2)
  {
    hide IndicesWith;
    var init, n := events[..|events| - 1], |events| - 1;
    if Doubtful(s, init) {
      var k :| 0 <= k < |init| && Alarmed(init[k]) && |IndicesWith(s, init[k].packetSequence.value)| >= 2;
      assert events[k] == init[k];
    }
    if Doubtful(s, events) {
      var k :| 0 <= k < |events| && Alarmed(events[k]) && |IndicesWith(s, events[k].packetSequence.value)| >= 2;
      if k < n { assert init[k] == events[k]; }
    }
  }

  lemma {:induction false} AlarmErrors(w: Wording, s: seq<Sighting>, events: seq<AlarmEvents.AlarmEvent>)
    ensures Mild(AlarmFindings(w, s, events)) <==> !Doubtful(s, events)
  {
    hide IndicesWith, AlarmFinding, Doubtful;
    if events == [] {
      NothingDoubtful(s);
    } else {
      var init, n := events[..|events| - 1], |events| - 1;
      AlarmErrors(w, s, init);
      DoubtfulStep(s, events);
      if Alarmed(events[n]) { FindingMild(w, s, events[n]); }
      MildConcat(AlarmFindings(w, s, init), if Alarmed(events[n]) then AlarmFinding(w, s, events[n]) else []);
    }
  }

  lemma AlarmsMild(w: Wording, s: seq<Sighting>, events: seq<AlarmEvents.AlarmEvent>)
    ensures Mild(AlarmDiagnostics(w, s, events)) <==> !Doubtful(s, events)
  {
    hide AlarmFindings, Doubtful;
    AlarmErrors(w, s, events);
    MildConcat(AlarmFindings(w, s, events), EndNote(w, AlarmLane, |events|, AlarmEvents.HasSummary(events)));
  }

  lemma LinkLaneMild(w: Wording, events: seq<LinkEvents.LinkEvent>)
    ensures Mild(LinkDiagnostics(w, events))
  {
    hide LinkFindings;
    LinkMild(w, events);
  }

  lemma FindingsMild(w: Wording, e: Evidence)
    ensures Mild(Findings(w, e)) <==> !(e.alarm.Some? && Doubtful(DecodedIn(e), e.alarm.value.records))
  {
    hide TelemetryDiagnostics, AlarmDiagnostics, LinkDiagnostics, Doubtful, DecodedIn;
    var a := if e.telemetry.Some? then TelemetryDiagnostics(w, e.telemetry.value.records)
      else [MissingNote(w, TelemetryLane)];
    var b := if e.alarm.Some? then AlarmDiagnostics(w, DecodedIn(e), e.alarm.value.records)
      else [MissingNote(w, AlarmLane)];
    var c := if e.link.Some? then LinkDiagnostics(w, e.link.value.records) else [MissingNote(w, LinkLane)];
    if e.telemetry.Some? { TelemetryMild(w, e.telemetry.value.records); }
    if e.alarm.Some? { AlarmsMild(w, DecodedIn(e), e.alarm.value.records); }
    if e.link.Some? { LinkLaneMild(w, e.link.value.records); }
    MildConcat(a, b);
    MildConcat(a + b, c);
  }

  /** A session is incompatible exactly when some alarm's sequence occurs in more than one decoded row. */
  lemma IncompatibleMeans(w: Wording, e: Evidence)
    ensures Session(w, e).HasIncompatibilities() <==>
      e.alarm.Some? && Doubtful(DecodedIn(e), e.alarm.value.records)
  {
    hide Findings, Doubtful, DecodedIn, SortBy, DiagnosticKey;
    FindingsMild(w, e);
    SortBySorts(DiagnosticKey, Findings(w, e));
    var s, f := Session(w, e).diagnostics, Findings(w, e);
    forall d
      ensures d in s <==> d in f
    {
      assert d in s <==> d in multiset(s);
      assert d in f <==> d in multiset(f);
    }
  }
}
