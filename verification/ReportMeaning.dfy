/** What filtering, limiting and accepting a report mean, in terms of positions on the session's timeline. */
module ReportMeaning {
  import opened Wrappers
  import opened Correlation
  import opened Inspection
  import opened Ordering
  import opened Reporting
  import opened SessionModels
  import opened SessionNormalization

  // ---------- filters ----------

  /** Every filter that is set, one by one. */
  predicate Selected(f: Filters, e: TimelineEntry) {
    && (f.sequenceMin.Some? ==> e.packetSequence.Some? && f.sequenceMin.value <= e.packetSequence.value)
    && (f.sequenceMax.Some? ==> e.packetSequence.Some? && e.packetSequence.value <= f.sequenceMax.value)
    && (f.alarmCode.Some? ==>
          e.lane == AlarmLane && e.attributes.OfAlarm? && e.attributes.alarm.Alarm?
          && e.attributes.alarm.code == f.alarmCode.value)
    && (f.alarmSeverity.Some? ==>
          e.lane == AlarmLane && e.attributes.OfAlarm? && e.attributes.alarm.Alarm?
          && e.attributes.alarm.severity == f.alarmSeverity.value)
  }

  lemma MatchesIsSelected(f: Filters, e: TimelineEntry)
    ensures Matches(f, e) <==> Selected(f, e)
  {
  }

  /** Filters are refused exactly for a bound out of range, bounds out of order, or a limit out of range. */
  lemma FiltersAllowed(f: Filters)
    ensures CheckFilters(f) == None <==>
      && (f.sequenceMin.Some? ==> 0 <= f.sequenceMin.value <= 4_294_967_295)
      && (f.sequenceMax.Some? ==> 0 <= f.sequenceMax.value <= 4_294_967_295)
      && (f.sequenceMin.Some? && f.sequenceMax.Some? ==> f.sequenceMin.value <= f.sequenceMax.value)
      && (f.limit.Some? ==> 1 <= f.limit.value <= 10_000)
  {
  }

  /** `p` lists the positions in `s` of all selected entries, in order. */
  ghost predicate SelectedAt(f: Filters, s: seq<TimelineEntry>, p: seq<nat>) {
    && (forall k :: 0 <= k < |p| ==> p[k] < |s|)
    && (forall j, k :: 0 <= j < k < |p| ==> p[j] < p[k])
    && (forall k: nat :: k in p <==> k < |s| && Selected(f, s[k]))
  }

  lemma {:induction false} KeptAreSelected(f: Filters, s: seq<TimelineEntry>) returns (p: seq<nat>)
    ensures SelectedAt(f, s, p) && |p| == |Kept(f, s)|
    ensures forall k :: 0 <= k < |p| ==> Kept(f, s)[k] == s[p[k]]
  {
    hide Selected, Matches;
    if s == [] {
      p := [];
    } else {
      var n := |s| - 1;
      var q := KeptAreSelected(f, s[..n]);
      MatchesIsSelected(f, s[n]);
      p := q + if Selected(f, s[n]) then [n] else [];
      forall k: nat
        ensures k in p <==> k < |s| && Selected(f, s[k])
      {
        assert k in p <==> k in q || (k == n && Selected(f, s[n]));
        assert k < n ==> s[..n][k] == s[k];
      }
    }
  }

  /** The report shows the first selected entries, as many as the limit allows, and says when it stopped short. */
  ghost predicate Shows(w: Wording, session: NormalizedSession, f: Filters, r: SessionReport, p: seq<nat>) {
    && SelectedAt(f, session.timeline, p)
    && r.session == session && r.filters == f
    && r.timelineTotal == |session.timeline| && r.timelineMatched == |p|
    && (r.truncated <==> f.limit.Some? && |p| > f.limit.value)
    && |r.timeline| == (if r.truncated then f.limit.value else |p|) <= |p|
    && (forall k :: 0 <= k < |r.timeline| ==> r.timeline[k] == session.timeline[p[k]])
    && SortedBy(DiagnosticKey, r.diagnostics)
    && multiset(r.diagnostics) == multiset(session.diagnostics)
         + if r.truncated then
             multiset{Diagnostic(TimelineTruncated, Info,
               w(Truncation(f.limit.value, |p|, |session.timeline|)), None, None, None, [])}
           else multiset{}
  }

  /** The projection of any session under any allowed filters. */
  lemma ProjectionShows(w: Wording, session: NormalizedSession, f: Filters) returns (p: seq<nat>)
    requires CheckFilters(f) == None
    ensures Shows(w, session, f, Projection(w, session, f), p)
  {
    hide Kept, SortBy, DiagnosticKey, Selected;
    p := KeptAreSelected(f, session.timeline);
    var notice := if Truncates(f, Kept(f, session.timeline)) then
      [Notice(w, f.limit.value, |p|, |session.timeline|)] else [];
    SortBySorts(DiagnosticKey, session.diagnostics + notice);
    assert multiset(session.diagnostics + notice) == multiset(session.diagnostics) + multiset(notice);
  }

  // ---------- acceptance ----------

  /** `d` is a truncation notice, whatever its words. */
  predicate Noticed(d: Diagnostic) {
    d == Diagnostic(TimelineTruncated, Info, d.message, None, None, None, [])
  }

  /** What remains of the diagnostics besides the session's: one notice when truncated, nothing otherwise. */
  ghost predicate NoticeAdded(r: SessionReport) {
    if r.truncated then
      exists d :: Noticed(d) && multiset(r.diagnostics) == multiset(r.session.diagnostics) + multiset{d}
    else multiset(r.diagnostics) == multiset(r.session.diagnostics)
  }

  lemma TimelineKeptMeans(r: SessionReport)
    requires Strict(r.session.timeline)
    ensures TimelineKept(r) <==> Subsequence(r.timeline, r.session.timeline)
  {
    hide Less, TimelineKept;
    StrictIsSorted(r.session.timeline);
    if TimelineKept(r) {
      var p := EntriesEmbed(r);
      assert Embeds(r.timeline, r.session.timeline, p);
    }
    if Subsequence(r.timeline, r.session.timeline) {
      var p :| Embeds(r.timeline, r.session.timeline, p);
      forall j, k | 0 <= j < k < |r.timeline|
        ensures Less(EntryKey(r.timeline[j]), EntryKey(r.timeline[k]))
      {
        assert p[j] < p[k];
      }
      StrictTimelineKept(r, r.timeline);
    }
  }

  lemma DiagnosticsKeptMeans(r: SessionReport)
    requires forall d :: multiset(r.session.diagnostics)[d] <= 1
    requires forall d :: d in r.session.diagnostics ==> d.code != TimelineTruncated
    ensures DiagnosticsKept(r) <==> SortedBy(DiagnosticKey, r.diagnostics) && NoticeAdded(r)
  {
    hide SortedBy, DiagnosticKey;
    if DiagnosticsKept(r) {
      NoticeLeft(r);
      if r.truncated {
        var d :| OneNoticeMore(r, d);
        assert Noticed(d);
      }
    }
    if SortedBy(DiagnosticKey, r.diagnostics) && NoticeAdded(r) {
      var extra: seq<Diagnostic> := [];
      if r.truncated {
        var d :| Noticed(d) && multiset(r.diagnostics) == multiset(r.session.diagnostics) + multiset{d};
        extra := [d];
      }
      ExtraOnce(r.session.diagnostics, extra, r.diagnostics);
      OnceMeansNoRepeats(r.diagnostics);
    }
  }

  /** A report on a session is acceptable exactly if it shows part of the timeline in order and adds up. */
  lemma AcceptableMeans(w: Wording, e: Evidence, r: SessionReport)
    requires Speaks(w) && Loaded(e) && r.session == Session(w, e)
    ensures Acceptable(r) <==>
      && r.timelineTotal == |r.session.timeline|
      && |r.timeline| <= r.timelineMatched <= r.timelineTotal
      && (r.truncated <==> |r.timeline| < r.timelineMatched)
      && Subsequence(r.timeline, r.session.timeline)
      && SortedBy(DiagnosticKey, r.diagnostics)
      && NoticeAdded(r)
  {
    hide Session, Loaded, Speaks, TimelineKept, DiagnosticsKept, SortedBy, IsNotice, Noticed;
    SessionTimelineStrict(w, e);
    DiagnosticsDistinct(w, e);
    TimelineKeptMeans(r);
    DiagnosticsKeptMeans(r);
  }
}
