/** Reports: filtered projections of a session, and the checker that every report must pass. */
module Reporting {
  import opened Wrappers
  import opened Correlation
  import opened Inspection
  import opened Ordering
  import opened SessionModels
  import opened SessionNormalization
  import Alarms
  import Codec

  const MAX_REPORT_EVENTS := 10_000

  datatype Filters = Filters(
    sequenceMin: Option<int>,
    sequenceMax: Option<int>,
    alarmCode: Option<Alarms.AlarmCode>,
    alarmSeverity: Option<Alarms.Severity>,
    limit: Option<int>)

  const NO_FILTERS := Filters(None, None, None, None, None)

  datatype SessionReport = SessionReport(
    session: NormalizedSession,
    timeline: seq<TimelineEntry>,
    diagnostics: seq<Diagnostic>,
    timelineTotal: int,
    timelineMatched: int,
    filters: Filters,
    truncated: bool)

  datatype ReportError =
    | FilterOutOfRange
    | MinAboveMax
    | LimitOutOfRange
    | WrongTotal
    | WrongMatched
    | TooManyRendered
    | DuplicateEntry
    | NotAProjection
    | TimelineUnordered
    | DiagnosticsUnordered
    | DuplicateDiagnostic
    | DiagnosticLost
    | ForeignDiagnostic
    | WrongTruncation
    | WrongNoticeCount

  // ---------- the checker ----------

  function KeyOf(e: TimelineEntry): (EvidenceLane, int) { (e.lane, e.sourceIndex) }

  /** Entries by key; a later entry replaces an earlier one. */
  function IndexEntries(s: seq<TimelineEntry>): map<(EvidenceLane, int), TimelineEntry> {
    if s == [] then map[] else IndexEntries(s[..|s| - 1])[KeyOf(s[|s| - 1]) := s[|s| - 1]]
  }

  predicate Indexed(m: map<(EvidenceLane, int), TimelineEntry>, e: TimelineEntry) {
    KeyOf(e) in m && m[KeyOf(e)] == e
  }

  ghost predicate DistinctKeys(s: seq<TimelineEntry>) {
    forall j, k :: 0 <= j < k < |s| ==> KeyOf(s[j]) != KeyOf(s[k])
  }

  ghost predicate NoRepeats<T>(s: seq<T>) {
    forall j, k :: 0 <= j < k < |s| ==> s[j] != s[k]
  }

  /** A session-level truncation notice. */
  predicate IsNotice(d: Diagnostic) {
    && d.code == TimelineTruncated && d.severity == Info
    && d.lane == None && d.sourceIndex == None && d.relatedLane == None && d.relatedIndices == []
  }

  /** The report's entries are the session's own, each once and in order. */
  ghost predicate TimelineKept(r: SessionReport) {
    && DistinctKeys(r.timeline)
    && (forall e :: e in r.timeline ==> Indexed(IndexEntries(r.session.timeline), e))
    && SortedBy(EntryKey, r.timeline)
  }

  /** The report's diagnostics are the session's and, when truncated, one notice. */
  ghost predicate DiagnosticsKept(r: SessionReport) {
    && SortedBy(DiagnosticKey, r.diagnostics)
    && NoRepeats(r.diagnostics)
    && multiset(r.session.diagnostics) <= multiset(r.diagnostics)
    && (forall d :: d in multiset(r.diagnostics) - multiset(r.session.diagnostics) ==> IsNotice(d))
    && |r.diagnostics| - |r.session.diagnostics| == if r.truncated then 1 else 0
  }

  ghost predicate Acceptable(r: SessionReport) {
    && r.timelineTotal == |r.session.timeline|
    && 0 <= r.timelineMatched <= r.timelineTotal
    && |r.timeline| <= r.timelineMatched
    && (r.truncated <==> |r.timeline| < r.timelineMatched)
    && TimelineKept(r)
    && DiagnosticsKept(r)
  }

  /** What is wrong first with the timeline, if anything is. */
  ghost function TimelineFault(r: SessionReport): Option<ReportError> {
    if !DistinctKeys(r.timeline) then Some(DuplicateEntry)
    else if exists e :: e in r.timeline && !Indexed(IndexEntries(r.session.timeline), e) then Some(NotAProjection)
    else if !SortedBy(EntryKey, r.timeline) then Some(TimelineUnordered)
    else None
  }

  /** What is wrong first with the diagnostics or with their number, if anything is. */
  ghost function DiagnosticsFault(r: SessionReport): Option<ReportError> {
    var own, all := multiset(r.session.diagnostics), multiset(r.diagnostics);
    if !SortedBy(DiagnosticKey, r.diagnostics) then Some(DiagnosticsUnordered)
    else if !NoRepeats(r.diagnostics) then Some(DuplicateDiagnostic)
    else if !(own <= all) then Some(DiagnosticLost)
    else if exists d :: d in all - own && !IsNotice(d) then Some(ForeignDiagnostic)
    else if r.truncated != (|r.timeline| < r.timelineMatched) then Some(WrongTruncation)
    else if |r.diagnostics| - |r.session.diagnostics| != (if r.truncated then 1 else 0) then Some(WrongNoticeCount)
    else None
  }

  /** The first thing wrong with a report, if anything is. */
  ghost function FaultOf(r: SessionReport): Option<ReportError> {
    if r.timelineTotal != |r.session.timeline| then Some(WrongTotal)
    else if !(0 <= r.timelineMatched <= r.timelineTotal) then Some(WrongMatched)
    else if |r.timeline| > r.timelineMatched then Some(TooManyRendered)
    else if TimelineFault(r).Some? then TimelineFault(r)
    else DiagnosticsFault(r)
  }

  lemma FaultlessIsAcceptable(r: SessionReport)
    ensures FaultOf(r) == None <==> Acceptable(r)
  {
    hide SortedBy, NoRepeats, DistinctKeys, Indexed, IsNotice;
  }

  /** The list without its first occurrence of `x`, if it has one. */
  function RemoveFirst<T(==)>(s: seq<T>, x: T): (r: Option<seq<T>>)
    ensures r.None? <==> x !in s
    ensures r.Some? ==> multiset(s) == multiset(r.value) + multiset{x}
  {
    if s == [] then None
    else
      assert s == [s[0]] + s[1..];
      if s[0] == x then Some(s[1..])
      else
        match RemoveFirst(s[1..], x)
        case None => None
        case Some(rest) =>
          assert multiset([s[0]] + rest) == multiset{s[0]} + multiset(rest);
          Some([s[0]] + rest)
  }

  lemma TooMany(s: seq<Diagnostic>, i: nat, d: Diagnostic)
    requires i < |s| && s[i] == d
    ensures multiset(s)[d] > multiset(s[..i])[d]
  {
    assert s == s[..i] + [d] + s[i + 1..];
    assert multiset(s) == multiset(s[..i]) + multiset{d} + multiset(s[i + 1..]);
  }

  /** The list of diagnostics left after removing the session's one by one. */
  method RemoveAll(all: seq<Diagnostic>, removed: seq<Diagnostic>) returns (rest: Option<seq<Diagnostic>>)
    ensures rest.Some? <==> multiset(removed) <= multiset(all)
    ensures rest.Some? ==> multiset(rest.value) == multiset(all) - multiset(removed)
  {
    var remaining := all;
    for i := 0 to |removed|
      invariant multiset(all) == multiset(remaining) + multiset(removed[..i])
    {
      var d := removed[i];
      var next := RemoveFirst(remaining, d);
      assert removed[..i + 1] == removed[..i] + [d];
      if next.None? {
        TooMany(removed, i, d);
        assert d !in multiset(remaining);
        return None;
      }
      remaining := next.value;
    }
    assert removed[..|removed|] == removed;
    return Some(remaining);
  }

  method IndexTimeline(s: seq<TimelineEntry>) returns (entries: map<(EvidenceLane, int), TimelineEntry>)
    ensures entries == IndexEntries(s)
  {
    entries := map[];
    for i := 0 to |s|
      invariant entries == IndexEntries(s[..i])
    {
      assert s[..i + 1][..i] == s[..i];
      entries := entries[KeyOf(s[i]) := s[i]];
    }
    assert s[..|s|] == s;
  }

  /** As many distinct members as positions means no repeats. */
  lemma {:induction false} CountsDistinct<T>(s: seq<T>)
    ensures |set x | x in s| <= |s|
    ensures |set x | x in s| == |s| <==> NoRepeats(s)
  {
    if s == [] {
    } else {
      var init, last := s[..|s| - 1], s[|s| - 1];
      CountsDistinct(init);
      assert s == init + [last];
      assert (set x | x in s) == (set x | x in init) + {last};
      if last in init {
        var k :| 0 <= k < |init| && init[k] == last;
        assert (set x | x in s) == (set x | x in init);
        assert s[k] == s[|init|];
      } else if NoRepeats(init) {
        assert forall k :: 0 <= k < |init| ==> init[k] in init;
      } else {
        var j, k :| 0 <= j < k < |init| && init[j] == init[k];
        assert s[j] == s[k];
      }
    }
  }

  method KeysDistinct(s: seq<TimelineEntry>) returns (distinct: bool)
    ensures distinct <==> DistinctKeys(s)
  {
    var keys := seq(|s|, k requires 0 <= k < |s| => KeyOf(s[k]));
    CountsDistinct(keys);
    distinct := |set k | k in keys| == |keys|;
    assert NoRepeats(keys) <==> DistinctKeys(s) by {
      assert forall k :: 0 <= k < |s| ==> keys[k] == KeyOf(s[k]);
    }
  }

  method CheckTimeline(r: SessionReport) returns (e: Option<ReportError>)
    ensures e == TimelineFault(r)
  {
    hide Less, IndexEntries, KeyOf, Indexed;
    var entries := IndexTimeline(r.session.timeline);
    var distinct := KeysDistinct(r.timeline);
    if !distinct {
      return Some(DuplicateEntry);
    }
    if exists k :: 0 <= k < |r.timeline| && !Indexed(entries, r.timeline[k]) {
      return Some(NotAProjection);
    }
    SortByFixes(EntryKey, r.timeline);
    if SortBy(EntryKey, r.timeline) != r.timeline {
      return Some(TimelineUnordered);
    }
    return None;
  }

  method CheckDiagnostics(r: SessionReport) returns (e: Option<ReportError>)
    ensures e == DiagnosticsFault(r)
  {
    hide DiagnosticKey, SortBy, IsNotice;
    SortByFixes(DiagnosticKey, r.diagnostics);
    if SortBy(DiagnosticKey, r.diagnostics) != r.diagnostics {
      return Some(DiagnosticsUnordered);
    }
    CountsDistinct(r.diagnostics);
    if |set d | d in r.diagnostics| != |r.diagnostics| {
      return Some(DuplicateDiagnostic);
    }
    var rest := RemoveAll(r.diagnostics, r.session.diagnostics);
    if rest.None? {
      return Some(DiagnosticLost);
    }
    assert forall d :: d in rest.value <==> d in multiset(rest.value);
    if exists k :: 0 <= k < |rest.value| && !IsNotice(rest.value[k]) {
      return Some(ForeignDiagnostic);
    }
    if r.truncated != (|r.timeline| < r.timelineMatched) {
      return Some(WrongTruncation);
    }
    assert |multiset(rest.value)| == |multiset(r.diagnostics)| - |multiset(r.session.diagnostics)|;
    if |rest.value| != if r.truncated then 1 else 0 {
      return Some(WrongNoticeCount);
    }
    return None;
  }

  /** Everything that the report's constructor checks. */
  method CheckReport(r: SessionReport) returns (e: Option<ReportError>)
    ensures e == FaultOf(r) && (e == None <==> Acceptable(r))
  {
    FaultlessIsAcceptable(r);
    if r.timelineTotal != |r.session.timeline| {
      return Some(WrongTotal);
    }
    if !(0 <= r.timelineMatched <= r.timelineTotal) {
      return Some(WrongMatched);
    }
    if |r.timeline| > r.timelineMatched {
      return Some(TooManyRendered);
    }
    e := CheckTimeline(r);
    if e.Some? {
      return;
    }
    e := CheckDiagnostics(r);
  }

  // ---------- what an accepted report is ----------

  /** Positions of `a` in `b`, ascending. */
  ghost predicate Embeds<T>(a: seq<T>, b: seq<T>, p: seq<nat>) {
    && |p| == |a|
    && (forall k :: 0 <= k < |p| ==> p[k] < |b| && b[p[k]] == a[k])
    && forall j, k :: 0 <= j < k < |p| ==> p[j] < p[k]
  }

  ghost predicate Subsequence<T(!new)>(a: seq<T>, b: seq<T>) {
    exists p: seq<nat> :: Embeds(a, b, p)
  }

  lemma {:induction false} IndexedIsMember(s: seq<TimelineEntry>, e: TimelineEntry)
    requires Indexed(IndexEntries(s), e)
    ensures exists k :: 0 <= k < |s| && s[k] == e
  {
    if s == [] || s[|s| - 1] == e {
    } else {
      IndexedIsMember(s[..|s| - 1], e);
      var k :| 0 <= k < |s| - 1 && s[..|s| - 1][k] == e;
      assert s[k] == e;
    }
  }

  lemma EqualKeys(d: TimelineEntry, e: TimelineEntry)
    ensures EntryKey(d) == EntryKey(e) <==> KeyOf(d) == KeyOf(e)
  {
    assert EntryKey(d)[0] == LaneRank(d.lane) && EntryKey(d)[1] == d.sourceIndex;
    assert EntryKey(e)[0] == LaneRank(e.lane) && EntryKey(e)[1] == e.sourceIndex;
  }

  lemma EntriesEmbed(r: SessionReport) returns (p: seq<nat>)
    requires SortedBy(EntryKey, r.session.timeline) && TimelineKept(r)
    ensures Embeds(r.timeline, r.session.timeline, p)
  {
    hide Less;
    var s := r.session.timeline;
    p := [];
    for i := 0 to |r.timeline|
      invariant |p| == i
      invariant forall k :: 0 <= k < i ==> p[k] < |s| && s[p[k]] == r.timeline[k]
    {
      IndexedIsMember(s, r.timeline[i]);
      var k :| 0 <= k < |s| && s[k] == r.timeline[i];
      p := p + [k];
    }
    forall j, k | 0 <= j < k < |p|
      ensures p[j] < p[k]
    {
      var d, e := r.timeline[j], r.timeline[k];
      assert p[k] < p[j] ==> InOrder(EntryKey, s, p[k], p[j]);
      assert InOrder(EntryKey, r.timeline, j, k);
      LessIsTotal(EntryKey(d), EntryKey(e));
      EqualKeys(d, e);
    }
  }

  /** `d` is a notice, new, and all that the report adds. */
  ghost predicate OneNoticeMore(r: SessionReport, d: Diagnostic) {
    && IsNotice(d) && d !in r.session.diagnostics
    && multiset(r.diagnostics) == multiset(r.session.diagnostics) + multiset{d}
  }

  lemma {:induction false} RepeatFree<T>(s: seq<T>, x: T)
    requires NoRepeats(s)
    ensures multiset(s)[x] <= 1
  {
    if s == [] {
    } else {
      var init, last := s[..|s| - 1], s[|s| - 1];
      RepeatFree(init, x);
      assert s == init + [last];
      if last == x {
        assert forall k :: 0 <= k < |init| ==> init[k] != x;
        assert x !in multiset(init);
      }
    }
  }

  lemma NoticeLeft(r: SessionReport)
    requires DiagnosticsKept(r)
    ensures !r.truncated ==> multiset(r.diagnostics) == multiset(r.session.diagnostics)
    ensures r.truncated ==> exists d :: OneNoticeMore(r, d)
  {
    hide DiagnosticKey, IsNotice;
    var all, own := multiset(r.diagnostics), multiset(r.session.diagnostics);
    var rest := all - own;
    assert all == own + rest;
    assert |all| == |r.diagnostics| && |own| == |r.session.diagnostics|;
    if r.truncated {
      assert |rest| == 1;
      var d :| d in rest;
      assert |rest - multiset{d}| == 0;
      assert rest == multiset{d};
      RepeatFree(r.diagnostics, d);
      assert d !in own;
      assert OneNoticeMore(r, d);
    } else {
      assert |rest| == 0;
      assert rest == multiset{};
    }
  }

  /**
   * Soundness: an accepted report renders a subsequence of the session's timeline, and its
   * diagnostics are the session's plus exactly one truncation notice when it is truncated.
   */
  lemma AcceptedReport(r: SessionReport)
    requires r.session.Valid() && Acceptable(r)
    ensures Subsequence(r.timeline, r.session.timeline)
    ensures !r.truncated ==> multiset(r.diagnostics) == multiset(r.session.diagnostics)
    ensures r.truncated ==> exists d :: OneNoticeMore(r, d)
    ensures r.truncated <==> |r.timeline| < r.timelineMatched
  {
    hide TimelineEntry.Valid, Diagnostic.Valid, LaneSummary.Valid, TimelineKept;
    var p := EntriesEmbed(r);
    assert Embeds(r.timeline, r.session.timeline, p);
    NoticeLeft(r);
  }

  lemma {:induction false} OnceMeansNoRepeats<T>(s: seq<T>)
    requires forall x :: multiset(s)[x] <= 1
    ensures NoRepeats(s)
  {
    if s == [] {
    } else {
      var init, last := s[..|s| - 1], s[|s| - 1];
      assert s == init + [last];
      assert multiset(s) == multiset(init) + multiset{last};
      forall x
        ensures multiset(init)[x] <= 1
      {
        assert multiset(s)[x] <= 1;
      }
      OnceMeansNoRepeats(init);
      assert multiset(s)[last] <= 1;
      assert last !in multiset(init);
      assert forall k :: 0 <= k < |init| ==> init[k] in multiset(init);
    }
  }

  // ---------- projection ----------

  function CheckFilters(f: Filters): Option<ReportError> {
    if f.sequenceMin.Some? && !Codec.Unsigned32(f.sequenceMin.value) then Some(FilterOutOfRange)
    else if f.sequenceMax.Some? && !Codec.Unsigned32(f.sequenceMax.value) then Some(FilterOutOfRange)
    else if f.sequenceMin.Some? && f.sequenceMax.Some? && f.sequenceMin.value > f.sequenceMax.value then
      Some(MinAboveMax)
    else if f.limit.Some? && !(1 <= f.limit.value <= MAX_REPORT_EVENTS) then Some(LimitOutOfRange)
    else None
  }

  predicate MatchesSequence(f: Filters, e: TimelineEntry) {
    f.sequenceMin.Some? || f.sequenceMax.Some? ==>
      && e.packetSequence.Some?
      && (f.sequenceMin.Some? ==> f.sequenceMin.value <= e.packetSequence.value)
      && (f.sequenceMax.Some? ==> e.packetSequence.value <= f.sequenceMax.value)
  }

  predicate MatchesAlarm(f: Filters, e: TimelineEntry) {
    f.alarmCode.Some? || f.alarmSeverity.Some? ==>
      && e.lane == AlarmLane && e.attributes.OfAlarm? && e.attributes.alarm.Alarm?
      && (f.alarmCode.Some? ==> e.attributes.alarm.code == f.alarmCode.value)
      && (f.alarmSeverity.Some? ==> e.attributes.alarm.severity == f.alarmSeverity.value)
  }

  /** Active filters combine with logical and. */
  predicate Matches(f: Filters, e: TimelineEntry) { MatchesSequence(f, e) && MatchesAlarm(f, e) }

  function Kept(f: Filters, s: seq<TimelineEntry>): (r: seq<TimelineEntry>)
    ensures |r| <= |s|
  {
    if s == [] then []
    else Kept(f, s[..|s| - 1]) + (if Matches(f, s[|s| - 1]) then [s[|s| - 1]] else [])
  }

  function Notice(w: Wording, limit: int, matched: int, total: int): Diagnostic {
    Diagnostic(TimelineTruncated, Info, w(Truncation(limit, matched, total)), None, None, None, [])
  }

  predicate Truncates(f: Filters, matched: seq<TimelineEntry>) { f.limit.Some? && |matched| > f.limit.value }

  /** The report that the projection builds, before its constructor's checks. */
  function Projection(w: Wording, session: NormalizedSession, f: Filters): SessionReport
    requires CheckFilters(f) == None
  {
    var matched := Kept(f, session.timeline);
    var cut := Truncates(f, matched);
    SessionReport(
      session,
      if cut then matched[..f.limit.value] else matched,
      SortBy(DiagnosticKey,
        session.diagnostics + if cut then [Notice(w, f.limit.value, |matched|, |session.timeline|)] else []),
      |session.timeline|, |matched|, f, cut)
  }

  /** The loop over the timeline, the limit, the notice, and the report's own checks. */
  method ProjectSessionReport(w: Wording, session: NormalizedSession, f: Filters)
    returns (r: Result<SessionReport, ReportError>)
    ensures CheckFilters(f).Some? ==> r == Failure(CheckFilters(f).value)
    ensures CheckFilters(f) == None ==>
      (r.Success? <==> Acceptable(Projection(w, session, f)))
    ensures r.Failure? && CheckFilters(f) == None ==> Some(r.error) == FaultOf(Projection(w, session, f))
    ensures r.Success? ==> r.value == Projection(w, session, f)
  {
    hide Acceptable, SortBy;
    if CheckFilters(f).Some? {
      return Failure(CheckFilters(f).value);
    }
    var matched: seq<TimelineEntry> := [];
    for i := 0 to |session.timeline|
      invariant matched == Kept(f, session.timeline[..i])
    {
      assert session.timeline[..i + 1][..i] == session.timeline[..i];
      if Matches(f, session.timeline[i]) {
        matched := matched + [session.timeline[i]];
      }
    }
    assert session.timeline[..|session.timeline|] == session.timeline;
    var truncated := Truncates(f, matched);
    var timeline := if truncated then matched[..f.limit.value] else matched;
    var diagnostics := session.diagnostics;
    if truncated {
      diagnostics := diagnostics + [Notice(w, f.limit.value, |matched|, |session.timeline|)];
    } else {
      assert diagnostics + [] == diagnostics;
    }
    var report := SessionReport(session, timeline, SortBy(DiagnosticKey, diagnostics), |session.timeline|, |matched|,
      f, truncated);
    var e := CheckReport(report);
    return if e.Some? then Failure(e.value) else Success(report);
  }

  /** Filtering keeps exactly the matching entries, in order. */
  lemma {:induction false} KeptIsFilter(f: Filters, s: seq<TimelineEntry>)
    ensures forall e :: e in Kept(f, s) <==> e in s && Matches(f, e)
    ensures Strict(s) ==> Strict(Kept(f, s))
  {
    hide Less, Matches;
    if s == [] {
    } else {
      var init, last := s[..|s| - 1], s[|s| - 1];
      KeptIsFilter(f, init);
      assert s == init + [last];
      if Strict(s) {
        forall k | 0 <= k < |Kept(f, init)|
          ensures Less(EntryKey(Kept(f, init)[k]), EntryKey(last))
        {
          assert Kept(f, init)[k] in Kept(f, init);
          var j :| 0 <= j < |init| && init[j] == Kept(f, init)[k];
          assert Less(EntryKey(s[j]), EntryKey(s[|init|]));
        }
      }
    }
  }

  lemma {:induction false} StrictIsIndexed(s: seq<TimelineEntry>, e: TimelineEntry)
    requires Strict(s) && e in s
    ensures Indexed(IndexEntries(s), e)
  {
    hide Less;
    var init, last := s[..|s| - 1], s[|s| - 1];
    if last == e {
    } else {
      assert s == init + [last];
      StrictIsIndexed(init, e);
      var k :| 0 <= k < |init| && init[k] == e;
      assert Less(EntryKey(s[k]), EntryKey(s[|init|]));
      LessIsTotal(EntryKey(e), EntryKey(last));
      EqualKeys(e, last);
    }
  }

  lemma StrictTimelineKept(r: SessionReport, s: seq<TimelineEntry>)
    requires Strict(r.session.timeline) && Strict(r.timeline)
    requires forall e :: e in r.timeline ==> e in r.session.timeline
    ensures TimelineKept(r)
  {
    hide Less;
    StrictIsSorted(r.timeline);
    forall e | e in r.timeline
      ensures Indexed(IndexEntries(r.session.timeline), e)
    {
      StrictIsIndexed(r.session.timeline, e);
    }
    forall j, k | 0 <= j < k < |r.timeline|
      ensures KeyOf(r.timeline[j]) != KeyOf(r.timeline[k])
    {
      LessIsTotal(EntryKey(r.timeline[j]), EntryKey(r.timeline[k]));
      EqualKeys(r.timeline[j], r.timeline[k]);
    }
  }

  lemma ExtraCount(own: seq<Diagnostic>, extra: seq<Diagnostic>, d: Diagnostic)
    requires multiset(own)[d] <= 1 && |extra| <= 1
    requires d in own ==> d.code != TimelineTruncated
    requires forall x :: x in extra ==> IsNotice(x)
    ensures (multiset(own) + multiset(extra))[d] <= 1
    ensures d in multiset(extra) ==> IsNotice(d)
  {
    if d in extra {
      assert extra == [d];
      assert d !in own;
      assert d !in multiset(own);
    } else {
      assert d !in multiset(extra);
    }
  }

  /** A notice added to distinct diagnostics without notices occurs once and is what remains of them. */
  lemma ExtraOnce(own: seq<Diagnostic>, extra: seq<Diagnostic>, all: seq<Diagnostic>)
    requires forall d :: multiset(own)[d] <= 1
    requires forall d :: d in own ==> d.code != TimelineTruncated
    requires |extra| <= 1 && forall d :: d in extra ==> IsNotice(d)
    requires multiset(all) == multiset(own + extra)
    ensures forall d :: multiset(all)[d] <= 1
    ensures multiset(own) <= multiset(all)
    ensures |all| == |own| + |extra|
    ensures forall d :: d in multiset(all) - multiset(own) ==> IsNotice(d)
  {
    assert multiset(own + extra) == multiset(own) + multiset(extra);
    assert multiset(all) - multiset(own) == multiset(extra);
    assert |multiset(all)| == |all| && |multiset(own + extra)| == |own + extra|;
    forall d
      ensures multiset(all)[d] <= 1
      ensures d in multiset(extra) ==> IsNotice(d)
    {
      ExtraCount(own, extra, d);
    }
  }

  lemma SortedDiagnosticsKept(r: SessionReport, extra: seq<Diagnostic>)
    requires r.diagnostics == SortBy(DiagnosticKey, r.session.diagnostics + extra)
    requires forall d :: multiset(r.session.diagnostics)[d] <= 1
    requires forall d :: d in r.session.diagnostics ==> d.code != TimelineTruncated
    requires |extra| == if r.truncated then 1 else 0
    requires forall d :: d in extra ==> IsNotice(d)
    ensures DiagnosticsKept(r)
  {
    hide DiagnosticKey, SortBy, NoRepeats, IsNotice;
    SortBySorts(DiagnosticKey, r.session.diagnostics + extra);
    ExtraOnce(r.session.diagnostics, extra, r.diagnostics);
    OnceMeansNoRepeats(r.diagnostics);
  }

  lemma SessionTimelineStrict(w: Wording, e: Evidence)
    requires Loaded(e)
    ensures Strict(Session(w, e).timeline)
  {
    TimelineInOrder(e);
  }

  lemma StrictTake(s: seq<TimelineEntry>, n: nat)
    requires Strict(s) && n <= |s|
    ensures Strict(s[..n])
    ensures forall e :: e in s[..n] ==> e in s
  {
    hide Less;
  }

  /** Completeness: every projection of a normalized session passes every check. */
  lemma ProjectedIsAccepted(w: Wording, e: Evidence, f: Filters)
    requires Speaks(w) && Loaded(e) && CheckFilters(f) == None
    ensures Acceptable(Projection(w, Session(w, e), f))
  {
    hide Loaded, Speaks, Session, SortBy, TimelineKept, DiagnosticsKept, Strict;
    var session := Session(w, e);
    var r := Projection(w, session, f);
    SessionTimelineStrict(w, e);
    DiagnosticsDistinct(w, e);
    var matched := Kept(f, session.timeline);
    KeptIsFilter(f, session.timeline);
    StrictTake(matched, |r.timeline|);
    assert r.timeline == matched[..|r.timeline|];
    StrictTimelineKept(r, matched);
    var extra := if r.truncated then [Notice(w, f.limit.value, |matched|, |session.timeline|)] else [];
    SortedDiagnosticsKept(r, extra);
  }

  /** The unfiltered report. */
  function FromSession(session: NormalizedSession): SessionReport {
    SessionReport(session, session.timeline, session.diagnostics, |session.timeline|, |session.timeline|,
      NO_FILTERS, false)
  }

  lemma {:induction false} NothingFiltered(s: seq<TimelineEntry>)
    ensures Kept(NO_FILTERS, s) == s
  {
    if s == [] {
    } else {
      NothingFiltered(s[..|s| - 1]);
      assert s == s[..|s| - 1] + [s[|s| - 1]];
    }
  }

  /** The unfiltered report is the projection without filters, and is accepted. */
  lemma UnfilteredIsAccepted(w: Wording, e: Evidence)
    requires Speaks(w) && Loaded(e)
    ensures Acceptable(FromSession(Session(w, e)))
    ensures FromSession(Session(w, e)) == Projection(w, Session(w, e), NO_FILTERS)
  {
    hide Loaded, Speaks, SortBy, Acceptable;
    var s := Session(w, e);
    NothingFiltered(s.timeline);
    SortBySorts(DiagnosticKey, Findings(w, e));
    SortByFixes(DiagnosticKey, s.diagnostics);
    assert s.diagnostics + [] == s.diagnostics;
    ProjectedIsAccepted(w, e, NO_FILTERS);
  }
}
