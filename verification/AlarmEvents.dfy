/** The alarm log: its events, the recorder that writes them, and the checks on a loaded log. */
module AlarmEvents {
  import opened Wrappers
  import opened Alarms
  import opened Codec
  import opened Texts

  const SCHEMA_VERSION := 1

  datatype AlarmEventType = RunMetadata | AlarmRaised | AlarmUpdated | AlarmCleared | RunSummary

  datatype AlarmRunMetadata = AlarmRunMetadata(
    policyName: string, policyReference: string, policySchemaVersion: int, policyFingerprint: string)
  {
    predicate Valid() {
      && ValidText(policyName) && ValidText(policyReference)
      && policySchemaVersion > 0 && IsFingerprint(policyFingerprint)
    }
  }

  datatype AlarmRunStatistics = AlarmRunStatistics(raised: nat, updated: nat, cleared: nat) {
    function Total(): nat { raised + updated + cleared }

    function WithTransition(t: TransitionType): AlarmRunStatistics {
      match t
      case Raised => this.(raised := raised + 1)
      case Updated => this.(updated := updated + 1)
      case Cleared => this.(cleared := cleared + 1)
    }
  }

  const NO_TRANSITIONS := AlarmRunStatistics(0, 0, 0)

  /** Decoded attributes: those of the header, of one transition, and the four numbers of a summary. */
  datatype Attributes =
    | Metadata(metadata: AlarmRunMetadata)
    | Alarm(severity: Severity, code: AlarmCode, identity: Identity, observed: Observed, threshold: Option<real>)
    | Summary(raised: int, updated: int, cleared: int, total: int)

  datatype AlarmEvent = AlarmEvent(
    sessionId: string,
    eventIndex: int,
    elapsedNs: int,
    eventType: AlarmEventType,
    packetSequence: Option<int>,
    attributes: Attributes,
    schemaVersion: int)

  predicate IsTransition(t: AlarmEventType) { t == AlarmRaised || t == AlarmUpdated || t == AlarmCleared }

  function EventTypeOf(t: TransitionType): AlarmEventType {
    match t case Raised => AlarmRaised case Updated => AlarmUpdated case Cleared => AlarmCleared
  }

  function ToSummary(s: AlarmRunStatistics): Attributes {
    Summary(s.raised, s.updated, s.cleared, s.Total())
  }

  function FromSummary(a: Attributes): Option<AlarmRunStatistics> {
    if a.Summary? && 0 <= a.raised && 0 <= a.updated && 0 <= a.cleared && a.total == a.raised + a.updated + a.cleared
    then Some(AlarmRunStatistics(a.raised, a.updated, a.cleared))
    else None
  }

  /** A written summary reads back as the counters it was written from, and nothing else reads back. */
  lemma SummaryRoundTrip(a: Attributes, s: AlarmRunStatistics)
    ensures FromSummary(a) == Some(s) <==> a == ToSummary(s)
  {
  }

  /** The rules that one decoded event must satisfy. */
  predicate EventShape(e: AlarmEvent) {
    && ValidText(e.sessionId) && e.eventIndex >= 0 && e.elapsedNs >= 0 && e.schemaVersion == SCHEMA_VERSION
    && (IsTransition(e.eventType) ==>
      e.packetSequence.Some? && Unsigned32(e.packetSequence.value) && e.attributes.Alarm?)
    && (e.eventType == RunMetadata ==>
      e.packetSequence == None && e.attributes.Metadata? && e.attributes.metadata.Valid())
    && (e.eventType == RunSummary ==> e.packetSequence == None && FromSummary(e.attributes).Some?)
  }

  // ---------- counters ----------

  function CountOf(events: seq<AlarmEvent>, t: AlarmEventType): nat {
    if events == [] then 0
    else CountOf(events[..|events| - 1], t) + (if events[|events| - 1].eventType == t then 1 else 0)
  }

  /** Counters recomputed from events, whatever a summary says. */
  function StatisticsOf(events: seq<AlarmEvent>): AlarmRunStatistics {
    AlarmRunStatistics(CountOf(events, AlarmRaised), CountOf(events, AlarmUpdated), CountOf(events, AlarmCleared))
  }

  lemma CountAppend(events: seq<AlarmEvent>, e: AlarmEvent, t: AlarmEventType)
    ensures CountOf(events + [e], t) == CountOf(events, t) + (if e.eventType == t then 1 else 0)
  {
    assert (events + [e])[..|events|] == events;
  }

  // ---------- checks on a whole log ----------

  datatype LogError =
    | InvalidEvent
    | NonContiguousIndex
    | SessionChanged
    | ElapsedMovedBackwards
    | EventAfterSummary
    | MissingMetadata
    | RepeatedMetadata
    | MissingSummary
    | BadSummaryFields
    | CountersDiffer

  function ValidateRunSummary(events: seq<AlarmEvent>): Result<AlarmRunStatistics, LogError> {
    if events == [] || events[|events| - 1].eventType != RunSummary then Failure(MissingSummary)
    else
      match FromSummary(events[|events| - 1].attributes)
      case None => Failure(BadSummaryFields)
      case Some(recorded) =>
        if recorded == StatisticsOf(events[..|events| - 1]) then Success(recorded) else Failure(CountersDiffer)
  }

  /** Event `k` fits its place in the log. */
  ghost predicate EventFits(events: seq<AlarmEvent>, k: nat)
    requires k < |events|
  {
    var e := events[k];
    && EventShape(e)
    && e.eventIndex == k
    && e.sessionId == events[0].sessionId
    && (e.eventType == RunMetadata <==> k == 0)
    && (e.eventType == RunSummary ==> k == |events| - 1)
  }

  ghost predicate InTime(events: seq<AlarmEvent>, j: nat, k: nat)
    requires j < |events| && k < |events|
  {
    events[j].elapsedNs <= events[k].elapsedNs
  }

  ghost predicate WellFormed(events: seq<AlarmEvent>) {
    && (forall k {:trigger EventFits(events, k)} :: 0 <= k < |events| ==> EventFits(events, k))
    && (forall j, k {:trigger InTime(events, j, k)} :: 0 <= j < k < |events| ==> InTime(events, j, k))
  }

  predicate HasSummary(events: seq<AlarmEvent>) {
    events != [] && events[|events| - 1].eventType == RunSummary
  }

  /** What the loader promises about an accepted log, complete or interrupted. */
  ghost predicate AcceptedLog(events: seq<AlarmEvent>) {
    && WellFormed(events)
    && (HasSummary(events) ==>
      events[|events| - 1].attributes == ToSummary(StatisticsOf(events[..|events| - 1])))
  }

  /** A final summary is accepted exactly when its attributes are those of the recomputed counters. */
  lemma SummaryDecides(events: seq<AlarmEvent>)
    requires HasSummary(events)
    ensures ValidateRunSummary(events).Success? <==>
      events[|events| - 1].attributes == ToSummary(StatisticsOf(events[..|events| - 1]))
    ensures ValidateRunSummary(events).Success? ==>
      ValidateRunSummary(events).value == StatisticsOf(events[..|events| - 1])
  {
    SummaryRoundTrip(events[|events| - 1].attributes, StatisticsOf(events[..|events| - 1]));
  }

  /** The facts about event `i` and its predecessor that the loop's refusals contradict. */
  lemma PrefixFits(records: seq<AlarmEvent>, i: nat)
    requires i < |records| && WellFormed(records[..i])
    ensures i > 0 ==> EventFits(records[..i], i - 1) && records[i - 1].elapsedNs >= 0
    ensures WellFormed(records) ==> EventFits(records, i)
    ensures WellFormed(records) && i > 0 ==> EventFits(records, i - 1) && InTime(records, i - 1, i)
  {
    if i > 0 {
      assert EventFits(records[..i], i - 1);
      assert records[..i][i - 1] == records[i - 1];
    }
  }

  lemma FormedExtends(events: seq<AlarmEvent>, e: AlarmEvent)
    requires WellFormed(events)
    requires EventShape(e) && e.eventIndex == |events|
    requires e.eventType == RunMetadata <==> events == []
    requires events != [] ==>
      && e.sessionId == events[0].sessionId
      && events[|events| - 1].elapsedNs <= e.elapsedNs
      && events[|events| - 1].eventType != RunSummary
    ensures WellFormed(events + [e])
  {
    var log := events + [e];
    forall j, k | 0 <= j < k < |log|
      ensures InTime(log, j, k)
    {
      if k < |events| {
        assert InTime(events, j, k);
      } else if j < |events| - 1 {
        assert InTime(events, j, |events| - 1);
      }
    }
    forall k | 0 <= k < |log|
      ensures EventFits(log, k)
    {
      if k < |events| {
        assert EventFits(events, k);
        assert log[k] == events[k] && log[0] == events[0];
      }
    }
  }

  /** What is wrong first with event `i`, if anything is. */
  function FaultOf(records: seq<AlarmEvent>, i: nat): Option<LogError>
    requires i < |records|
  {
    var e := records[i];
    if !EventShape(e) then Some(InvalidEvent)
    else if e.eventIndex != i then Some(NonContiguousIndex)
    else if e.sessionId != records[0].sessionId then Some(SessionChanged)
    else if i > 0 && e.elapsedNs < records[i - 1].elapsedNs then Some(ElapsedMovedBackwards)
    else if i > 0 && records[i - 1].eventType == RunSummary then Some(EventAfterSummary)
    else if i == 0 && e.eventType != RunMetadata then Some(MissingMetadata)
    else if i > 0 && e.eventType == RunMetadata then Some(RepeatedMetadata)
    else None
  }

  /** Event `i` is the first that does not fit, for this reason; or only the summary's counters do not. */
  ghost predicate RefusedAt(records: seq<AlarmEvent>, i: nat, error: LogError) {
    if i < |records| then WellFormed(records[..i]) && FaultOf(records, i) == Some(error)
    else WellFormed(records) && HasSummary(records) && ValidateRunSummary(records) == Failure(error)
  }

  /** The loader's loop over its running variables. */
  method LoadAlarmEvents(records: seq<AlarmEvent>) returns (r: Result<seq<AlarmEvent>, LogError>)
    ensures r.Success? <==> AcceptedLog(records)
    ensures r.Success? ==> r.value == records
    ensures r.Failure? ==> exists i: nat :: RefusedAt(records, i, r.error)
  {
    var events: seq<AlarmEvent> := [];
    var sessionId: Option<string> := None;
    var previousElapsedNs := -1;
    var summarySeen := false;
    for i := 0 to |records|
      invariant events == records[..i]
      invariant WellFormed(events)
      invariant sessionId == if i == 0 then None else Some(records[0].sessionId)
      invariant previousElapsedNs == if i == 0 then -1 else records[i - 1].elapsedNs
      invariant summarySeen <==> i > 0 && records[i - 1].eventType == RunSummary
    {
      var event := records[i];
      PrefixFits(records, i);
      if !EventShape(event) {
        assert RefusedAt(records, i, InvalidEvent);
        return Failure(InvalidEvent);
      }
      if event.eventIndex != |events| {
        assert RefusedAt(records, i, NonContiguousIndex);
        return Failure(NonContiguousIndex);
      }
      if sessionId.None? {
        sessionId := Some(event.sessionId);
      } else if event.sessionId != sessionId.value {
        assert RefusedAt(records, i, SessionChanged);
        return Failure(SessionChanged);
      }
      if event.elapsedNs < previousElapsedNs {
        assert !InTime(records, i - 1, i);
        assert RefusedAt(records, i, ElapsedMovedBackwards);
        return Failure(ElapsedMovedBackwards);
      }
      if summarySeen {
        assert !EventFits(records, i - 1);
        assert RefusedAt(records, i, EventAfterSummary);
        return Failure(EventAfterSummary);
      }
      if events == [] && event.eventType != RunMetadata {
        assert RefusedAt(records, i, MissingMetadata);
        return Failure(MissingMetadata);
      }
      if events != [] && event.eventType == RunMetadata {
        assert RefusedAt(records, i, RepeatedMetadata);
        return Failure(RepeatedMetadata);
      }
      if event.eventType == RunSummary {
        summarySeen := true;
      }
      FormedExtends(events, event);
      events := events + [event];
      previousElapsedNs := event.elapsedNs;
    }
    assert records[..|records|] == records;
    if HasSummary(events) {
      SummaryDecides(events);
      var checked := ValidateRunSummary(events);
      if checked.Failure? {
        assert RefusedAt(records, |records|, checked.error);
        return Failure(checked.error);
      }
    }
    return Success(events);
  }

  // ---------- the recorder ----------

  /** One transition with the sequence of the packet that caused it. */
  datatype Entry = Entry(sequence: U32, transition: AlarmTransition)

  /** What a recorder is opened with. Reading 0 of the clock is the start of the run. */
  datatype Recording = Recording(sessionId: string, metadata: AlarmRunMetadata, clock: nat -> nat) {
    predicate Valid() { ValidText(sessionId) && metadata.Valid() }

    function Elapsed(reading: nat): nat {
      if clock(reading) >= clock(0) then clock(reading) - clock(0) else 0
    }
  }

  function EventFor(r: Recording, index: nat, e: Entry): AlarmEvent {
    var t := e.transition;
    AlarmEvent(r.sessionId, index, r.Elapsed(index), EventTypeOf(t.transition), Some(e.sequence),
      Alarm(t.severity, t.code, t.identity, t.observed, t.threshold), SCHEMA_VERSION)
  }

  /** The open log after the given transitions. */
  function LogOf(r: Recording, entries: seq<Entry>): (log: seq<AlarmEvent>)
    ensures |log| == |entries| + 1
  {
    if entries == [] then [AlarmEvent(r.sessionId, 0, 0, RunMetadata, None, Metadata(r.metadata), SCHEMA_VERSION)]
    else LogOf(r, entries[..|entries| - 1]) + [EventFor(r, |entries|, entries[|entries| - 1])]
  }

  function SummaryFor(r: Recording, index: nat, s: AlarmRunStatistics): AlarmEvent {
    AlarmEvent(r.sessionId, index, r.Elapsed(index), RunSummary, None, ToSummary(s), SCHEMA_VERSION)
  }

  /** The log of a closed recorder. */
  function ClosedLog(r: Recording, entries: seq<Entry>): seq<AlarmEvent> {
    LogOf(r, entries) + [SummaryFor(r, |entries| + 1, StatisticsOf(LogOf(r, entries)))]
  }

  datatype RecorderError = RecorderClosed

  lemma NothingCounted(r: Recording)
    ensures StatisticsOf(LogOf(r, [])) == NO_TRANSITIONS
  {
    var e := LogOf(r, [])[0];
    assert LogOf(r, []) == [] + [e];
    CountAppend([], e, AlarmRaised);
    CountAppend([], e, AlarmUpdated);
    CountAppend([], e, AlarmCleared);
  }

  function EntriesFor(sequence: U32, transitions: seq<AlarmTransition>): (r: seq<Entry>)
    ensures |r| == |transitions|
    ensures forall k :: 0 <= k < |r| ==> r[k] == Entry(sequence, transitions[k])
  {
    seq(|transitions|, k requires 0 <= k < |transitions| => Entry(sequence, transitions[k]))
  }

  lemma LogAppend(r: Recording, entries: seq<Entry>, e: Entry)
    ensures LogOf(r, entries + [e]) == LogOf(r, entries) + [EventFor(r, |entries| + 1, e)]
  {
    assert (entries + [e])[..|entries|] == entries;
  }

  lemma StatisticsExtend(r: Recording, entries: seq<Entry>, e: Entry)
    ensures LogOf(r, entries + [e]) == LogOf(r, entries) + [EventFor(r, |entries| + 1, e)]
    ensures StatisticsOf(LogOf(r, entries + [e])) ==
      StatisticsOf(LogOf(r, entries)).WithTransition(e.transition.transition)
  {
    LogAppend(r, entries, e);
    var event := EventFor(r, |entries| + 1, e);
    CountAppend(LogOf(r, entries), event, AlarmRaised);
    CountAppend(LogOf(r, entries), event, AlarmUpdated);
    CountAppend(LogOf(r, entries), event, AlarmCleared);
  }

  class AlarmEventRecorder {
    const recording: Recording
    var eventIndex: nat
    var statistics: AlarmRunStatistics
    var closed: bool
    /** The lines of the file. */
    var log: seq<AlarmEvent>
    ghost var entries: seq<Entry>

    ghost predicate Valid()
      reads this
    {
      && recording.Valid()
      && eventIndex == |log|
      && statistics == StatisticsOf(LogOf(recording, entries))
      && log == if closed then ClosedLog(recording, entries) else LogOf(recording, entries)
    }

    constructor (recording: Recording)
      requires recording.Valid()
      ensures Valid() && this.recording == recording && entries == [] && !closed
    {
      this.recording := recording;
      eventIndex := 1;
      statistics := NO_TRANSITIONS;
      closed := false;
      entries := [];
      NothingCounted(recording);
      log := LogOf(recording, []);
    }

    method WriteTransition(sequence: U32, t: AlarmTransition)
      requires Valid() && !closed
      modifies this
      ensures Valid() && !closed && entries == old(entries) + [Entry(sequence, t)]
    {
      var e := EventFor(recording, eventIndex, Entry(sequence, t));
      StatisticsExtend(recording, entries, Entry(sequence, t));
      log := log + [e];
      eventIndex := eventIndex + 1;
      statistics := statistics.WithTransition(t.transition);
      entries := entries + [Entry(sequence, t)];
    }

    /** One event for each transition, in order; a closed recorder takes none. */
    method WriteTransitions(sequence: U32, transitions: seq<AlarmTransition>) returns (r: Result<(), RecorderError>)
      requires Valid()
      modifies this
      ensures Valid() && closed == old(closed)
      ensures r.Failure? <==> old(closed) && transitions != []
      ensures r.Success? ==> entries == old(entries) + EntriesFor(sequence, transitions)
      ensures r.Failure? ==> entries == old(entries)
    {
      hide StatisticsOf, LogOf, ClosedLog, SummaryFor, EventFor;
      for i := 0 to |transitions|
        invariant Valid() && closed == old(closed) && (closed ==> i == 0)
        invariant entries == old(entries) + EntriesFor(sequence, transitions[..i])
      {
        if closed {
          return Failure(RecorderClosed);
        }
        assert transitions[..i + 1] == transitions[..i] + [transitions[i]];
        WriteTransition(sequence, transitions[i]);
      }
      assert transitions[..|transitions|] == transitions;
      return Success(());
    }

    /** The summary, written once. */
    method Close()
      requires Valid()
      modifies this
      ensures Valid() && closed && entries == old(entries)
      ensures log == ClosedLog(recording, entries)
    {
      if closed {
        return;
      }
      log := log + [SummaryFor(recording, eventIndex, statistics)];
      eventIndex := eventIndex + 1;
      closed := true;
    }
  }

  // ---------- every recorded log is accepted ----------

  /** The elapsed times of the first `n` readings after the start never go backwards. */
  ghost predicate Steady(r: Recording, n: nat) {
    forall k :: 0 <= k < n ==> r.Elapsed(k) <= r.Elapsed(k + 1)
  }

  lemma NondecreasingClockIsSteady(r: Recording, n: nat)
    requires forall k :: 0 <= k < n ==> r.clock(k) <= r.clock(k + 1)
    ensures Steady(r, n)
  {
  }

  lemma {:induction false} EventsOfLog(r: Recording, entries: seq<Entry>, k: nat)
    requires k <= |entries|
    ensures LogOf(r, entries)[k] ==
      if k == 0 then AlarmEvent(r.sessionId, 0, 0, RunMetadata, None, Metadata(r.metadata), SCHEMA_VERSION)
      else EventFor(r, k, entries[k - 1])
    decreases entries
  {
    if k == |entries| {
    } else {
      EventsOfLog(r, entries[..|entries| - 1], k);
    }
  }

  lemma PrefixFormed(log: seq<AlarmEvent>, n: nat)
    requires WellFormed(log) && n < |log|
    ensures WellFormed(log[..n])
  {
    forall k | 0 <= k < n
      ensures EventFits(log[..n], k)
    {
      assert EventFits(log, k);
    }
    forall j, k | 0 <= j < k < n
      ensures InTime(log[..n], j, k)
    {
      assert InTime(log, j, k);
    }
  }

  /** An open log is accepted by the loader exactly when the clock was steady. */
  lemma {:induction false} OpenLogAccepted(r: Recording, entries: seq<Entry>)
    requires r.Valid()
    ensures AcceptedLog(LogOf(r, entries)) <==> Steady(r, |entries|)
    ensures !HasSummary(LogOf(r, entries))
  {
    var log := LogOf(r, entries);
    if entries == [] {
      assert EventFits(log, 0);
    } else {
      var init := entries[..|entries| - 1];
      OpenLogAccepted(r, init);
      EventsOfLog(r, entries, 0);
      EventsOfLog(r, entries, |entries|);
      EventsOfLog(r, entries, |entries| - 1);
      if Steady(r, |entries|) {
        FormedExtends(LogOf(r, init), EventFor(r, |entries|, entries[|entries| - 1]));
      }
      if AcceptedLog(log) {
        assert InTime(log, |entries| - 1, |entries|);
        PrefixFormed(log, |entries|);
        assert log[..|entries|] == LogOf(r, init);
      }
    }
  }

  /**
   * A closed log is accepted exactly when the clock was steady up to the summary, and its counters
   * always check out.
   */
  lemma ClosedLogAccepted(r: Recording, entries: seq<Entry>)
    requires r.Valid()
    ensures AcceptedLog(ClosedLog(r, entries)) <==> Steady(r, |entries| + 1)
    ensures ValidateRunSummary(ClosedLog(r, entries)) == Success(StatisticsOf(LogOf(r, entries)))
  {
    var log, open := ClosedLog(r, entries), LogOf(r, entries);
    var n := |entries|;
    assert log[..n + 1] == open;
    SummaryDecides(log);
    OpenLogAccepted(r, entries);
    EventsOfLog(r, entries, 0);
    EventsOfLog(r, entries, n);
    if Steady(r, n + 1) {
      FormedExtends(open, log[n + 1]);
    }
    if AcceptedLog(log) {
      assert InTime(log, n, n + 1);
      PrefixFormed(log, n + 1);
    }
  }

  // ---------- what the counters count ----------

  function CountEntries(entries: seq<Entry>, t: TransitionType): nat {
    if entries == [] then 0
    else
      CountEntries(entries[..|entries| - 1], t)
      + (if entries[|entries| - 1].transition.transition == t then 1 else 0)
  }

  /** The recorder's counters are the numbers of transitions of each type, and miss none. */
  lemma {:induction false} CountersCountTransitions(r: Recording, entries: seq<Entry>)
    ensures var s := StatisticsOf(LogOf(r, entries));
      && s == AlarmRunStatistics(
           CountEntries(entries, Raised), CountEntries(entries, Updated), CountEntries(entries, Cleared))
      && s.Total() == |entries|
  {
    if entries == [] {
      NothingCounted(r);
    } else {
      var init := entries[..|entries| - 1];
      CountersCountTransitions(r, init);
      StatisticsExtend(r, init, entries[|entries| - 1]);
      assert entries == init + [entries[|entries| - 1]];
    }
  }
}
