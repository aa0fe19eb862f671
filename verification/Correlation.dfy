/** Evidence lanes, correlation of alarms to telemetry, and source completeness. */
module Correlation {
  import opened Wrappers
  import opened Codec

  datatype EvidenceLane = TelemetryLane | AlarmLane | LinkLane
  datatype CorrelationKind = Exact | OrderedOnly | SeparateLane | Ambiguous | Impossible
  datatype CorrelationBasis = SourceOrder | PacketSequence | NoBasis
  datatype SourceCompleteness = Complete | Incomplete | Unknown

  const LANE_PRECEDENCE: seq<EvidenceLane> := [TelemetryLane, AlarmLane, LinkLane]

  function LaneRank(lane: EvidenceLane): nat {
    match lane case TelemetryLane => 0 case AlarmLane => 1 case LinkLane => 2
  }

  predicate ReadableSchema(lane: EvidenceLane, version: int) {
    version == 1 || (lane == LinkLane && version == 2)
  }

  ghost predicate Ascending(xs: seq<int>) {
    forall j, k :: 0 <= j < k < |xs| ==> xs[j] < xs[k]
  }

  datatype CorrelationDecision = CorrelationDecision(
    kind: CorrelationKind, basis: CorrelationBasis, candidates: seq<nat>)
  {
    /** The checks of the record's constructor. */
    ghost predicate Valid() {
      && (kind == Exact ==> |candidates| == 1)
      && (kind == Ambiguous ==> |candidates| >= 2)
      && (kind != Exact && kind != Ambiguous ==> candidates == [])
      && forall j, k :: 0 <= j < k < |candidates| ==> candidates[j] <= candidates[k]
    }
  }

  /** The positions of `target`, ascending. */
  function Occurrences(sequences: seq<int>, target: int): seq<nat> {
    if sequences == [] then []
    else
      var n := |sequences| - 1;
      Occurrences(sequences[..n], target) + (if sequences[n] == target then [n] else [])
  }

  lemma {:induction false} OccurrencesAreAll(sequences: seq<int>, target: int)
    ensures Ascending(Occurrences(sequences, target))
    ensures forall k: nat :: k in Occurrences(sequences, target) <==> k < |sequences| && sequences[k] == target
  {
    if sequences == [] {
    } else {
      var n := |sequences| - 1;
      var init := sequences[..n];
      OccurrencesAreAll(init, target);
      var xs, ys := Occurrences(init, target), Occurrences(sequences, target);
      forall k: nat
        ensures k in ys <==> k < |sequences| && sequences[k] == target
      {
        assert k in xs <==> k < n && init[k] == target;
        assert k in ys <==> k in xs || (k == n && sequences[n] == target);
      }
      assert forall j :: 0 <= j < |xs| ==> xs[j] in xs;
    }
  }

  lemma {:induction false} OccurrencesCount(sequences: seq<int>, target: int)
    ensures |Occurrences(sequences, target)| == multiset(sequences)[target]
  {
    if sequences == [] {
    } else {
      var n := |sequences| - 1;
      OccurrencesCount(sequences[..n], target);
      assert multiset(sequences) == multiset(sequences[..n]) + multiset{sequences[n]} by {
        assert sequences == sequences[..n] + [sequences[n]];
      }
    }
  }

  function DecisionFor(candidates: seq<nat>): CorrelationDecision {
    CorrelationDecision(
      if |candidates| == 1 then Exact else if |candidates| > 1 then Ambiguous else Impossible,
      PacketSequence, candidates)
  }

  datatype CorrelationError = SequenceOutOfRange | NegativeCount | SummaryInEmptySource | NoSummaryMarker

  /** The scan over all sequences, refusing any that is out of range. */
  method ClassifyTelemetryAlarmMatch(sequences: seq<int>, target: int)
    returns (r: Result<CorrelationDecision, CorrelationError>)
    ensures r.Failure? <==> !Unsigned32(target) || exists k :: 0 <= k < |sequences| && !Unsigned32(sequences[k])
    ensures r.Failure? ==> r.error == SequenceOutOfRange
    ensures r.Success? ==> r.value == DecisionFor(Occurrences(sequences, target))
  {
    if !Unsigned32(target) {
      return Failure(SequenceOutOfRange);
    }
    var candidates: seq<nat> := [];
    for i := 0 to |sequences|
      invariant forall k :: 0 <= k < i ==> Unsigned32(sequences[k])
      invariant candidates == Occurrences(sequences[..i], target)
    {
      if !Unsigned32(sequences[i]) {
        return Failure(SequenceOutOfRange);
      }
      assert sequences[..i + 1][..i] == sequences[..i];
      if sequences[i] == target {
        candidates := candidates + [i];
      }
    }
    assert sequences[..|sequences|] == sequences;
    if |candidates| == 1 {
      return Success(CorrelationDecision(Exact, PacketSequence, candidates));
    }
    if |candidates| > 1 {
      return Success(CorrelationDecision(Ambiguous, PacketSequence, candidates));
    }
    return Success(CorrelationDecision(Impossible, PacketSequence, []));
  }

  /** What a decision says about the evidence: how often the alarm's sequence occurs, and where. */
  lemma DecisionMeaning(sequences: seq<int>, target: int)
    ensures var d := DecisionFor(Occurrences(sequences, target)); var n := multiset(sequences)[target];
      && d.Valid()
      && (d.kind == Exact <==> n == 1)
      && (d.kind == Ambiguous <==> n >= 2)
      && (d.kind == Impossible <==> target !in sequences)
      && (forall k: nat :: k in d.candidates <==> k < |sequences| && sequences[k] == target)
  {
    OccurrencesAreAll(sequences, target);
    OccurrencesCount(sequences, target);
    assert target in sequences <==> target in multiset(sequences);
  }

  /** Telemetry has no completion marker; the other lanes end with a summary. */
  function ClassifySourceCompleteness(lane: EvidenceLane, recordCount: int, summaryPresent: bool)
    : Result<SourceCompleteness, CorrelationError>
  {
    if recordCount < 0 then Failure(NegativeCount)
    else if recordCount == 0 then
      if summaryPresent then Failure(SummaryInEmptySource) else Success(Incomplete)
    else if lane == TelemetryLane then
      if summaryPresent then Failure(NoSummaryMarker) else Success(Unknown)
    else Success(if summaryPresent then Complete else Incomplete)
  }

  /**
   * An event log with records is complete exactly when it is closed; a telemetry recording, which nothing
   * closes, is never known to be; a source without records is incomplete. Anything else is refused.
   */
  lemma CompletenessMeans(lane: EvidenceLane, recordCount: int, summaryPresent: bool)
    ensures var r := ClassifySourceCompleteness(lane, recordCount, summaryPresent);
      && (r == Success(Complete) <==> lane != TelemetryLane && recordCount > 0 && summaryPresent)
      && (r == Success(Unknown) <==> lane == TelemetryLane && recordCount > 0 && !summaryPresent)
      && (r == Success(Incomplete) <==>
           !summaryPresent && (recordCount == 0 || (recordCount > 0 && lane != TelemetryLane)))
      && (r == Failure(NegativeCount) <==> recordCount < 0)
      && (r == Failure(SummaryInEmptySource) <==> recordCount == 0 && summaryPresent)
      && (r == Failure(NoSummaryMarker) <==> lane == TelemetryLane && recordCount > 0 && summaryPresent)
  {
  }
}
