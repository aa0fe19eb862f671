/** The normalized records of a session and the rules their constructors enforce. */
module SessionModels {
  import opened Wrappers
  import opened Correlation
  import opened Ordering
  import AlarmEvents
  import Codec
  import LinkEvents
  import Texts

  // ---------- diagnostics ----------

  datatype DiagnosticSeverity = Info | Warning | Error

  datatype DiagnosticCode =
    | AlarmCorrelationAmbiguous
    | AlarmCorrelationImpossible
    | LinkCorruptionObserved
    | MetadataMismatch
    | SourceEmpty
    | SourceIncomplete
    | SourceNotProvided
    | SourceSummaryMissing
    | TelemetryPacketRejected
    | TelemetrySequenceDuplicate
    | TelemetrySequenceGap
    | TimelineTruncated

  function SeverityRank(s: DiagnosticSeverity): nat {
    match s case Error => 0 case Warning => 1 case Info => 2
  }

  /** Alphabetical position of the code's text. */
  function CodeRank(c: DiagnosticCode): nat {
    match c
    case AlarmCorrelationAmbiguous => 0
    case AlarmCorrelationImpossible => 1
    case LinkCorruptionObserved => 2
    case MetadataMismatch => 3
    case SourceEmpty => 4
    case SourceIncomplete => 5
    case SourceNotProvided => 6
    case SourceSummaryMissing => 7
    case TelemetryPacketRejected => 8
    case TelemetrySequenceDuplicate => 9
    case TelemetrySequenceGap => 10
    case TimelineTruncated => 11
  }

  /** What a message says. How it is worded is left open. */
  datatype Message =
    | NotProvided(lane: EvidenceLane)
    | EmptySource(lane: EvidenceLane)
    | NoSummary(lane: EvidenceLane)
    | Rejected(index: int, reason: Codec.ProtocolError)
    | Repeated(sequence: int)
    | Gap(previous: int, expected: int, found: int, missing: Option<int>)
    | AmbiguousAlarm(event: int, sequence: int)
    | ImpossibleAlarm(event: int, sequence: int)
    | Corruption(packetIndex: Option<int>)
    | Truncation(limit: int, matched: int, total: int)

  type Wording = Message -> string

  ghost predicate Speaks(w: Wording) {
    forall m :: Texts.ValidText(w(m))
  }

  datatype Diagnostic = Diagnostic(
    code: DiagnosticCode,
    severity: DiagnosticSeverity,
    message: string,
    lane: Option<EvidenceLane>,
    sourceIndex: Option<int>,
    relatedLane: Option<EvidenceLane>,
    relatedIndices: seq<int>)
  {
    /** The checks of the record's constructor. */
    ghost predicate Valid() {
      && Texts.ValidText(message)
      && (sourceIndex.Some? ==> sourceIndex.value >= 0 && lane.Some?)
      && (forall k :: 0 <= k < |relatedIndices| ==> relatedIndices[k] >= 0)
      && Ascending(relatedIndices)
      && (relatedLane.Some? <==> relatedIndices != [])
    }
  }

  function OptionalLaneRank(lane: Option<EvidenceLane>): nat {
    if lane.Some? then LaneRank(lane.value) else |LANE_PRECEDENCE|
  }

  function OptionalIndex(index: Option<int>): int {
    if index.Some? then index.value else -1
  }

  function Shifted(xs: seq<int>): (r: Key)
    ensures |r| == |xs| && forall k :: 0 <= k < |r| ==> r[k] == xs[k] + 1
  {
    seq(|xs|, k requires 0 <= k < |xs| => xs[k] + 1)
  }

  function Characters(s: string): Key {
    seq(|s|, k requires 0 <= k < |s| => s[k] as int)
  }

  function Rank(d: Diagnostic): (key: Key)
    ensures |key| == 4
  {
    [OptionalLaneRank(d.lane), OptionalIndex(d.sourceIndex), SeverityRank(d.severity), CodeRank(d.code)]
  }

  /**
   * The sort key, flattened: related indices are shifted above the 0 that ends them, so that the
   * flat order is the order of the nested tuples.
   */
  function DiagnosticKey(d: Diagnostic): Key {
    Rank(d) + ([OptionalLaneRank(d.relatedLane)] + Shifted(d.relatedIndices) + [0] + Characters(d.message))
  }

  // ---------- timeline ----------

  datatype TimelineEntryKind = TelemetryPacketEntry | TelemetryRejected | AlarmTransitionEntry | LinkEventEntry

  datatype EntryType =
    | PacketDecoded
    | PacketRejected
    | AlarmType(alarm: AlarmEvents.AlarmEventType)
    | LinkType(link: LinkEvents.LinkEventType)

  datatype EntryAttributes =
    | Readings(packet: Codec.TelemetryPacket)
    | Reason(reason: Codec.ProtocolError)
    | OfAlarm(alarm: AlarmEvents.Attributes)
    | OfLink(link: LinkEvents.Attributes)

  datatype TimelineEntry = TimelineEntry(
    lane: EvidenceLane,
    sourceIndex: int,
    kind: TimelineEntryKind,
    eventType: EntryType,
    receivedAt: Option<real>,
    elapsedNs: Option<int>,
    packetSequence: Option<int>,
    packetIndex: Option<int>,
    telemetryTimestampMs: Option<int>,
    attributes: EntryAttributes,
    correlation: Option<CorrelationDecision>)
  {
    /** The checks of the record's constructor. */
    ghost predicate Valid() {
      && sourceIndex >= 0
      && (receivedAt.Some? ==> receivedAt.value >= 0.0)
      && (elapsedNs.Some? ==> elapsedNs.value >= 0)
      && (packetSequence.Some? ==> Codec.Unsigned32(packetSequence.value))
      && (packetIndex.Some? ==> packetIndex.value >= 0)
      && (telemetryTimestampMs.Some? ==> Codec.Unsigned64(telemetryTimestampMs.value))
      && (correlation.Some? ==> correlation.value.Valid())
      && LaneShape()
    }

    predicate LaneShape() {
      match lane
      case TelemetryLane =>
        && receivedAt.Some? && elapsedNs == None && packetIndex == None && correlation == None
        && (kind == TelemetryPacketEntry || kind == TelemetryRejected)
        && (kind == TelemetryPacketEntry ==> packetSequence.Some? && telemetryTimestampMs.Some?)
        && (kind == TelemetryRejected ==> packetSequence == None && telemetryTimestampMs == None)
      case AlarmLane =>
        && kind == AlarmTransitionEntry && receivedAt == None && elapsedNs.Some?
        && packetSequence.Some? && packetIndex == None && telemetryTimestampMs == None
        && correlation.Some?
        && correlation.value.kind in {Exact, Ambiguous, Impossible}
      case LinkLane =>
        && kind == LinkEventEntry && receivedAt == None && elapsedNs.Some?
        && packetSequence == None && telemetryTimestampMs == None && correlation == None
    }
  }

  function EntryKey(e: TimelineEntry): Key { [LaneRank(e.lane), e.sourceIndex] }

  // ---------- sources ----------

  datatype SourceDescriptor = SourceDescriptor(
    lane: EvidenceLane,
    sourceName: string,
    recordCount: int,
    completeness: SourceCompleteness,
    schemaVersion: Option<int>,
    sessionId: Option<string>)
  {
    /** The checks of the record's constructor. */
    predicate Valid() {
      && Texts.ValidText(sourceName)
      && recordCount >= 0
      && (schemaVersion.Some? ==> ReadableSchema(lane, schemaVersion.value))
      && (sessionId.Some? ==> Texts.ValidText(sessionId.value) && lane != TelemetryLane)
    }
  }

  datatype Counters =
    | TelemetryCounters(recordsTotal: nat, decoded: nat, rejected: nat, gaps: nat, duplicates: nat)
    | AlarmCounters(alarm: AlarmEvents.AlarmRunStatistics)
    | LinkCounters(link: LinkEvents.LinkStatistics)

  datatype LaneMetadata =
    | NoMetadata
    | AlarmMetadata(alarm: AlarmEvents.AlarmRunMetadata)
    | LinkMetadata(link: LinkEvents.LinkRunMetadata)

  datatype LaneSummary = LaneSummary(
    source: SourceDescriptor, summaryPresent: bool, counters: Counters, metadata: LaneMetadata)
  {
    /** The checks of the record's constructor. */
    predicate Valid() {
      && source.Valid()
      && ClassifySourceCompleteness(source.lane, source.recordCount, summaryPresent) == Success(source.completeness)
    }
  }

  // ---------- the session ----------

  function Lanes(sources: seq<LaneSummary>): (lanes: seq<EvidenceLane>)
    ensures |lanes| == |sources|
    ensures forall k :: 0 <= k < |lanes| ==> lanes[k] == sources[k].source.lane
  {
    seq(|sources|, k requires 0 <= k < |sources| => sources[k].source.lane)
  }

  datatype NormalizedSession = NormalizedSession(
    sources: seq<LaneSummary>, timeline: seq<TimelineEntry>, diagnostics: seq<Diagnostic>)
  {
    /** The checks of the record's constructor, and of the constructors of its parts. */
    ghost predicate Valid() {
      && |sources| == 3 && Lanes(sources) == LANE_PRECEDENCE
      && (forall k :: 0 <= k < |sources| ==> sources[k].Valid())
      && (forall e :: e in timeline ==> e.Valid())
      && (forall d :: d in diagnostics ==> d.Valid())
      && SortedBy(EntryKey, timeline)
      && SortedBy(DiagnosticKey, diagnostics)
    }

    predicate HasIncompleteSources() {
      exists s :: s in sources && s.source.completeness == Incomplete
    }

    predicate HasIncompatibilities() {
      exists d :: d in diagnostics && d.severity == Error
    }
  }

  // ---------- keys ----------

  lemma {:induction false} LessOnPrefix(a: Key, b: Key, x: Key, y: Key)
    requires |a| == |b|
    ensures Less(a, b) ==> Less(a + x, b + y)
    ensures a == b ==> (Less(a + x, b + y) <==> Less(x, y))
  {
    if a == [] {
      assert a + x == x && b + y == y;
    } else {
      assert (a + x)[1..] == a[1..] + x && (b + y)[1..] == b[1..] + y;
      LessOnPrefix(a[1..], b[1..], x, y);
    }
  }

  lemma LessSingle(b: int, d: int)
    ensures Less([b], [d]) <==> b < d
  {
    assert [b][1..] == [] && [d][1..] == [];
  }

  lemma LessFirst(a: int, c: int, x: Key, y: Key)
    ensures Less([a] + x, [c] + y) <==> a < c || (a == c && Less(x, y))
  {
    assert ([a] + x)[1..] == x && ([c] + y)[1..] == y;
  }

  /** Index lists with a terminator below every index compare as lists, before what follows them. */
  lemma {:induction false} LessTerminated(xs: seq<int>, ys: seq<int>, u: Key, v: Key)
    requires forall k :: 0 <= k < |xs| ==> xs[k] >= 0
    requires forall k :: 0 <= k < |ys| ==> ys[k] >= 0
    ensures Less(Shifted(xs) + [0] + u, Shifted(ys) + [0] + v) <==> Less(xs, ys) || (xs == ys && Less(u, v))
    decreases xs
  {
    var a, b := Shifted(xs) + [0] + u, Shifted(ys) + [0] + v;
    if xs == [] || ys == [] {
      if xs == [] { assert a == [0] + u; }
      if ys == [] { assert b == [0] + v; }
      assert a[1..] == u || xs != [];
      assert b[1..] == v || ys != [];
    } else {
      assert a[1..] == Shifted(xs[1..]) + [0] + u;
      assert b[1..] == Shifted(ys[1..]) + [0] + v;
      LessTerminated(xs[1..], ys[1..], u, v);
      assert xs == [xs[0]] + xs[1..] && ys == [ys[0]] + ys[1..];
    }
  }

  /** The names of the diagnostic codes, in alphabetical order. */
  const CODE_NAMES: seq<string> := [
    "alarm_correlation_ambiguous", "alarm_correlation_impossible", "link_corruption_observed", "metadata_mismatch",
    "source_empty", "source_incomplete", "source_not_provided", "source_summary_missing",
    "telemetry_packet_rejected", "telemetry_sequence_duplicate", "telemetry_sequence_gap", "timeline_truncated"]

  function CodeName(c: DiagnosticCode): string {
    match c
    case AlarmCorrelationAmbiguous => "alarm_correlation_ambiguous"
    case AlarmCorrelationImpossible => "alarm_correlation_impossible"
    case LinkCorruptionObserved => "link_corruption_observed"
    case MetadataMismatch => "metadata_mismatch"
    case SourceEmpty => "source_empty"
    case SourceIncomplete => "source_incomplete"
    case SourceNotProvided => "source_not_provided"
    case SourceSummaryMissing => "source_summary_missing"
    case TelemetryPacketRejected => "telemetry_packet_rejected"
    case TelemetrySequenceDuplicate => "telemetry_sequence_duplicate"
    case TelemetrySequenceGap => "telemetry_sequence_gap"
    case TimelineTruncated => "timeline_truncated"
  }

  lemma NamesAdjacent(j: nat)
    requires j < 11
    ensures Less(Characters(CODE_NAMES[j]), Characters(CODE_NAMES[j + 1]))
  {
    hide Less;
    var a, b := Characters(CODE_NAMES[j]), Characters(CODE_NAMES[j + 1]);
    var n := [18, 0, 0, 0, 7, 7, 7, 0, 10, 19, 1][j];
    LessMeans(a, b);
    assert a[..n] == b[..n];
    assert SmallerAt(a, b, n);
  }

  lemma {:induction false} NamesRise(j: nat, k: nat)
    requires j < k < 12
    ensures Less(Characters(CODE_NAMES[j]), Characters(CODE_NAMES[k]))
  {
    hide Less;
    NamesAdjacent(k - 1);
    if j == k - 1 {
    } else {
      var a, b, c := Characters(CODE_NAMES[j]), Characters(CODE_NAMES[k - 1]), Characters(CODE_NAMES[k]);
      NamesRise(j, k - 1);
      LessIsTotal(a, b);
      LessIsTotal(b, c);
      LessIsTotal(a, c);
      LessTransitive(a, b, c);
    }
  }

  /** Codes rank as their names stand in the alphabet. */
  lemma CodesAlphabetical(c: DiagnosticCode, d: DiagnosticCode)
    ensures CodeRank(c) < CodeRank(d) <==> Less(Characters(CodeName(c)), Characters(CodeName(d)))
  {
    hide Less, Characters;
    assert CodeName(c) == CODE_NAMES[CodeRank(c)] && CodeName(d) == CODE_NAMES[CodeRank(d)];
    LessIsTotal(Characters(CodeName(c)), Characters(CodeName(d)));
    if CodeRank(c) < CodeRank(d) {
      NamesRise(CodeRank(c), CodeRank(d));
    } else if CodeRank(d) < CodeRank(c) {
      NamesRise(CodeRank(d), CodeRank(c));
    }
  }

  /** Diagnostics rank by lane, those without one last; by index, without one first; errors before warnings. */
  lemma RanksMean(d: Diagnostic)
    ensures Rank(d)[0] == (match d.lane case Some(TelemetryLane) => 0 case Some(AlarmLane) => 1
                           case Some(LinkLane) => 2 case None => 3)
    ensures Rank(d)[1] == (match d.sourceIndex case Some(k) => k case None => -1)
    ensures Rank(d)[2] == (match d.severity case Error => 0 case Warning => 1 case Info => 2)
    ensures Rank(d)[3] == CodeRank(d.code)
  {
  }

  /** The comparison of the nested key tuples. */
  predicate TupleLess(d: Diagnostic, e: Diagnostic) {
    || Less(Rank(d), Rank(e))
    || (Rank(d) == Rank(e) && (
         || OptionalLaneRank(d.relatedLane) < OptionalLaneRank(e.relatedLane)
         || (OptionalLaneRank(d.relatedLane) == OptionalLaneRank(e.relatedLane) && (
              || Less(d.relatedIndices, e.relatedIndices)
              || (d.relatedIndices == e.relatedIndices && Less(Characters(d.message), Characters(e.message)))))))
  }

  /** The flat key orders diagnostics as the nested tuples do. */
  lemma FlatKeyIsTupleOrder(d: Diagnostic, e: Diagnostic)
    requires d.Valid() && e.Valid()
    ensures Less(DiagnosticKey(d), DiagnosticKey(e)) <==> TupleLess(d, e)
  {
    hide Less, Shifted, Characters, Rank;
    var x, y := Shifted(d.relatedIndices) + [0] + Characters(d.message),
      Shifted(e.relatedIndices) + [0] + Characters(e.message);
    var p, q := OptionalLaneRank(d.relatedLane), OptionalLaneRank(e.relatedLane);
    LessTerminated(d.relatedIndices, e.relatedIndices, Characters(d.message), Characters(e.message));
    LessFirst(p, q, x, y);
    assert [p] + Shifted(d.relatedIndices) + [0] + Characters(d.message) == [p] + x;
    assert [q] + Shifted(e.relatedIndices) + [0] + Characters(e.message) == [q] + y;
    LessOnPrefix(Rank(d), Rank(e), [p] + x, [q] + y);
    LessOnPrefix(Rank(e), Rank(d), [q] + y, [p] + x);
    LessIsTotal(Rank(d), Rank(e));
    LessIsTotal(DiagnosticKey(d), DiagnosticKey(e));
  }

  /** Entries are ordered by lane and then by source index. */
  lemma EntryOrder(d: TimelineEntry, e: TimelineEntry)
    ensures Less(EntryKey(d), EntryKey(e)) <==>
      LaneRank(d.lane) < LaneRank(e.lane) || (d.lane == e.lane && d.sourceIndex < e.sourceIndex)
  {
    assert EntryKey(d) == [LaneRank(d.lane)] + [d.sourceIndex];
    assert EntryKey(e) == [LaneRank(e.lane)] + [e.sourceIndex];
    LessFirst(LaneRank(d.lane), LaneRank(e.lane), [d.sourceIndex], [e.sourceIndex]);
    LessSingle(d.sourceIndex, e.sourceIndex);
  }
}
