/** Link events, their counters, the stream that stamps them, and the checks on a loaded log. */
module LinkEvents {
  import opened Wrappers
  import opened Texts
  import opened Impairments

  const SCHEMA_VERSION := 2

  datatype LinkEventType =
    | RunMetadata
    | PacketReceived
    | PacketDropped
    | PacketDelayed
    | PacketDuplicated
    | PacketCorrupted
    | DeliveryScheduled
    | PacketReordered
    | PacketForwarded
    | RunSummary

  datatype Scalar = Text(text: string) | Number(number: int) | Fraction(fraction: real) | Flag(flag: bool) | Null

  type Counted = t: LinkEventType | t != RunMetadata && t != RunSummary witness PacketReceived

  /** The attribute names that the emulator itself writes. */
  const KNOWN_NAMES: set<string> := {
    "packets_received", "packets_dropped", "packets_delayed", "packets_duplicated", "packets_corrupted",
    "packets_reordered", "deliveries_scheduled", "deliveries_forwarded", "payload_bytes", "copies", "corrupted_bit",
    "delay_ms", "copy_index", "hold_packets", "overtaken_by_packet_index", "release_after_packet"}

  type Name = s: string | s != "" && s !in KNOWN_NAMES witness "x"

  /** Attribute names: the counters of a run summary, the known event fields, and any other name. */
  datatype Field =
    | Count(event: Counted)
    | PayloadBytes
    | CopyCount
    | BitIndex
    | DelayField
    | CopyField
    | HoldField
    | OvertakenBy
    | ReleaseAfter
    | Named(name: Name)

  function CounterText(t: Counted): (s: string)
    ensures s in KNOWN_NAMES
  {
    match t
    case PacketReceived => "packets_received"
    case PacketDropped => "packets_dropped"
    case PacketDelayed => "packets_delayed"
    case PacketDuplicated => "packets_duplicated"
    case PacketCorrupted => "packets_corrupted"
    case PacketReordered => "packets_reordered"
    case DeliveryScheduled => "deliveries_scheduled"
    case PacketForwarded => "deliveries_forwarded"
  }

  function FieldText(f: Field): (s: string)
    ensures s !in KNOWN_NAMES <==> f.Named?
  {
    match f
    case Count(t) => CounterText(t)
    case PayloadBytes => "payload_bytes"
    case CopyCount => "copies"
    case BitIndex => "corrupted_bit"
    case DelayField => "delay_ms"
    case CopyField => "copy_index"
    case HoldField => "hold_packets"
    case OvertakenBy => "overtaken_by_packet_index"
    case ReleaseAfter => "release_after_packet"
    case Named(name) => name
  }

  /** One text, one name. */
  lemma FieldTextIdentifies(f: Field, g: Field)
    ensures FieldText(f) == FieldText(g) ==> f == g
  {
    if FieldText(f) == FieldText(g) && !f.Named? {
      var s, t := FieldText(f), FieldText(g);
      assert |s| == |t| && s[0] == t[0] && s[|s| - 2] == t[|t| - 2];
      assert |s| > 10 ==> s[8] == t[8] && s[9] == t[9];
    }
  }

  datatype ProfileIdentity = ProfileIdentity(name: string, reference: string, schemaVersion: int)

  datatype LinkRunMetadata = LinkRunMetadata(configurationFingerprint: string, profile: Option<ProfileIdentity>)
  {
    /** The checks of the record's constructor. */
    predicate Valid() {
      && IsFingerprint(configurationFingerprint)
      && (profile.Some? ==>
        && ValidText(profile.value.name) && ValidText(profile.value.reference)
        && profile.value.schemaVersion > 0)
    }
  }

  datatype Attributes = Metadata(metadata: LinkRunMetadata) | Fields(fields: map<Field, Scalar>)

  datatype LinkEvent = LinkEvent(
    sessionId: string,
    eventIndex: int,
    elapsedNs: int,
    eventType: LinkEventType,
    packetIndex: Option<int>,
    attributes: Attributes,
    schemaVersion: int)

  /** The rules that one decoded event must satisfy. */
  predicate EventShape(e: LinkEvent) {
    && NonBlank(e.sessionId)
    && e.eventIndex >= 0
    && e.elapsedNs >= 0
    && (e.packetIndex.Some? ==> e.packetIndex.value >= 0)
    && (e.schemaVersion == 1 || e.schemaVersion == SCHEMA_VERSION)
    && (e.eventType == RunMetadata ==>
      e.schemaVersion >= 2 && e.packetIndex == None && e.attributes.Metadata? && e.attributes.metadata.Valid())
    && (e.eventType != RunMetadata ==> e.attributes.Fields?)
    && (e.eventType == RunSummary ==> e.packetIndex == None)
  }

  // ---------- counters ----------

  datatype LinkStatistics = LinkStatistics(
    packetsReceived: nat,
    packetsDropped: nat,
    packetsDelayed: nat,
    packetsDuplicated: nat,
    packetsCorrupted: nat,
    packetsReordered: nat,
    deliveriesScheduled: nat,
    deliveriesForwarded: nat)

  const ZERO_STATISTICS := LinkStatistics(0, 0, 0, 0, 0, 0, 0, 0)

  const COUNTED: set<LinkEventType> := {
    PacketReceived, PacketDropped, PacketDelayed, PacketDuplicated,
    PacketCorrupted, PacketReordered, DeliveryScheduled, PacketForwarded }

  /** The counters after one more event of the given type. */
  function Incremented(s: LinkStatistics, t: LinkEventType): LinkStatistics {
    match t
    case PacketReceived => s.(packetsReceived := s.packetsReceived + 1)
    case PacketDropped => s.(packetsDropped := s.packetsDropped + 1)
    case PacketDelayed => s.(packetsDelayed := s.packetsDelayed + 1)
    case PacketDuplicated => s.(packetsDuplicated := s.packetsDuplicated + 1)
    case PacketCorrupted => s.(packetsCorrupted := s.packetsCorrupted + 1)
    case PacketReordered => s.(packetsReordered := s.packetsReordered + 1)
    case DeliveryScheduled => s.(deliveriesScheduled := s.deliveriesScheduled + 1)
    case PacketForwarded => s.(deliveriesForwarded := s.deliveriesForwarded + 1)
    case RunMetadata => s
    case RunSummary => s
  }

  /** How many events have the given type. */
  function CountOf(events: seq<LinkEvent>, t: LinkEventType): nat {
    if events == [] then 0
    else CountOf(events[..|events| - 1], t) + (if events[|events| - 1].eventType == t then 1 else 0)
  }

  /** The counters that a log deserves: one plain count for each counted type. */
  function StatisticsOf(events: seq<LinkEvent>): LinkStatistics {
    LinkStatistics(
      CountOf(events, PacketReceived), CountOf(events, PacketDropped), CountOf(events, PacketDelayed),
      CountOf(events, PacketDuplicated), CountOf(events, PacketCorrupted), CountOf(events, PacketReordered),
      CountOf(events, DeliveryScheduled), CountOf(events, PacketForwarded))
  }

  lemma CountAppend(events: seq<LinkEvent>, e: LinkEvent, t: LinkEventType)
    ensures CountOf(events + [e], t) == CountOf(events, t) + (if e.eventType == t then 1 else 0)
  {
    assert (events + [e])[..|events|] == events;
  }

  lemma StatisticsAppend(events: seq<LinkEvent>, e: LinkEvent)
    ensures StatisticsOf(events + [e]) == Incremented(StatisticsOf(events), e.eventType)
  {
    CountAppend(events, e, PacketReceived);
    CountAppend(events, e, PacketDropped);
    CountAppend(events, e, PacketDelayed);
    CountAppend(events, e, PacketDuplicated);
    CountAppend(events, e, PacketCorrupted);
    CountAppend(events, e, PacketReordered);
    CountAppend(events, e, DeliveryScheduled);
    CountAppend(events, e, PacketForwarded);
  }

  function ToFields(s: LinkStatistics): map<Field, Scalar> {
    map[
      Count(PacketReceived) := Number(s.packetsReceived),
      Count(PacketDropped) := Number(s.packetsDropped),
      Count(PacketDelayed) := Number(s.packetsDelayed),
      Count(PacketDuplicated) := Number(s.packetsDuplicated),
      Count(PacketCorrupted) := Number(s.packetsCorrupted),
      Count(PacketReordered) := Number(s.packetsReordered),
      Count(DeliveryScheduled) := Number(s.deliveriesScheduled),
      Count(PacketForwarded) := Number(s.deliveriesForwarded)]
  }

  function CounterFields(): set<Field> {
    set t | t in COUNTED :: Count(t)
  }

  predicate IsCount(v: Scalar) { v.Number? && v.number >= 0 }

  function FromFields(fields: map<Field, Scalar>): Option<LinkStatistics> {
    if fields.Keys == CounterFields() && forall k :: k in fields ==> IsCount(fields[k]) then
      Some(LinkStatistics(
        fields[Count(PacketReceived)].number, fields[Count(PacketDropped)].number,
        fields[Count(PacketDelayed)].number, fields[Count(PacketDuplicated)].number,
        fields[Count(PacketCorrupted)].number, fields[Count(PacketReordered)].number,
        fields[Count(DeliveryScheduled)].number, fields[Count(PacketForwarded)].number))
    else None
  }

  lemma WrittenNames(s: LinkStatistics)
    ensures ToFields(s).Keys == CounterFields()
    ensures forall k :: k in CounterFields() ==> k.Count?
  {
  }

  lemma CounterReads(fields: map<Field, Scalar>, s: LinkStatistics, t: Counted)
    requires FromFields(fields) == Some(s)
    ensures Count(t) in fields && Count(t) in ToFields(s) && fields[Count(t)] == ToFields(s)[Count(t)]
  {
    WrittenNames(s);
    assert t in COUNTED;
    assert IsCount(fields[Count(t)]);
  }

  /** A written summary reads back as the counters it was written from, and nothing else reads back. */
  lemma SummaryRoundTrip(fields: map<Field, Scalar>, s: LinkStatistics)
    ensures FromFields(fields) == Some(s) <==> fields == ToFields(s)
  {
    WrittenNames(s);
    if FromFields(fields) == Some(s) {
      forall k | k in fields
        ensures fields[k] == ToFields(s)[k]
      {
        CounterReads(fields, s, k.event);
      }
      assert fields.Keys == ToFields(s).Keys;
    }
  }

  /** One counter for each counted type, holding the number of its events. */
  ghost predicate Tallies(counters: map<LinkEventType, nat>, events: seq<LinkEvent>) {
    && counters.Keys == COUNTED
    && forall t :: t in counters ==> counters[t] == CountOf(events, t)
  }

  lemma TallyAppend(counters: map<LinkEventType, nat>, events: seq<LinkEvent>, e: LinkEvent)
    requires Tallies(counters, events)
    ensures var t := e.eventType;
      Tallies(if t in COUNTED then counters[t := counters[t] + 1] else counters, events + [e])
  {
    forall u { CountAppend(events, e, u); }
  }

  method StatisticsFromEvents(events: seq<LinkEvent>) returns (s: LinkStatistics)
    ensures s == StatisticsOf(events)
  {
    var counters: map<LinkEventType, nat> := map t | t in COUNTED :: 0;
    for i := 0 to |events|
      invariant Tallies(counters, events[..i])
    {
      hide CountOf;
      var t := events[i].eventType;
      assert events[..i + 1] == events[..i] + [events[i]];
      TallyAppend(counters, events[..i], events[i]);
      if t in COUNTED {
        counters := counters[t := counters[t] + 1];
      }
    }
    assert events[..|events|] == events;
    s := LinkStatistics(
      counters[PacketReceived], counters[PacketDropped], counters[PacketDelayed],
      counters[PacketDuplicated], counters[PacketCorrupted], counters[PacketReordered],
      counters[DeliveryScheduled], counters[PacketForwarded]);
  }

  // ---------- checks on a whole log ----------

  datatype LogError =
    | InvalidEvent
    | NonContiguousIndex
    | SessionChanged
    | SchemaChanged
    | ElapsedMovedBackwards
    | EventAfterSummary
    | MissingMetadata
    | MisplacedMetadata
    | MissingSummary
    | RepeatedSummary
    | BadSummaryFields
    | CountersDiffer

  /** Event `k` fits its place in the log. */
  ghost predicate EventFits(events: seq<LinkEvent>, k: nat)
    requires k < |events|
  {
    var e := events[k];
    && EventShape(e)
    && e.eventIndex == k
    && e.sessionId == events[0].sessionId
    && e.schemaVersion == events[0].schemaVersion
    && (e.eventType == RunSummary ==> k == |events| - 1)
    && (e.schemaVersion >= 2 ==> (e.eventType == RunMetadata <==> k == 0))
  }

  ghost predicate InTime(events: seq<LinkEvent>, j: nat, k: nat)
    requires j < |events| && k < |events|
  {
    events[j].elapsedNs <= events[k].elapsedNs
  }

  /** What the loader promises about an accepted log. */
  ghost predicate AcceptedLog(events: seq<LinkEvent>) {
    && (forall k {:trigger EventFits(events, k)} :: 0 <= k < |events| ==> EventFits(events, k))
    && (forall j, k {:trigger InTime(events, j, k)} :: 0 <= j < k < |events| ==> InTime(events, j, k))
  }

  /** The facts about event `i` and its predecessor that the loop's refusals contradict. */
  lemma PrefixFits(records: seq<LinkEvent>, i: nat)
    requires i < |records| && AcceptedLog(records[..i])
    ensures i > 0 ==> EventFits(records[..i], i - 1) && records[i - 1].elapsedNs >= 0
    ensures AcceptedLog(records) ==> EventFits(records, i)
    ensures AcceptedLog(records) && i > 0 ==> EventFits(records, i - 1) && InTime(records, i - 1, i)
  {
    if i > 0 {
      assert EventFits(records[..i], i - 1);
      assert records[..i][i - 1] == records[i - 1];
    }
  }

  lemma AcceptedExtends(events: seq<LinkEvent>, e: LinkEvent)
    requires AcceptedLog(events)
    requires EventShape(e) && e.eventIndex == |events|
    requires events != [] ==>
      && e.sessionId == events[0].sessionId
      && e.schemaVersion == events[0].schemaVersion
      && events[|events| - 1].elapsedNs <= e.elapsedNs
      && events[|events| - 1].eventType != RunSummary
    requires e.schemaVersion >= 2 ==> (e.eventType == RunMetadata <==> events == [])
    ensures AcceptedLog(events + [e])
  {
    var log := events + [e];
    forall j, k | 0 <= j < k < |log|
      ensures InTime(log, j, k)
    {
      if k < |events| {
        assert InTime(events, j, k);
      } else if j < |events| - 1 {
        assert InTime(events, j, |events| - 1);
      }
    }
    forall k | 0 <= k < |log|
      ensures EventFits(log, k)
    {
      if k < |events| {
        assert EventFits(events, k);
        assert log[k] == events[k] && log[0] == events[0];
      }
    }
  }

  /** What is wrong first with event `i`, if anything is. */
  function FaultOf(records: seq<LinkEvent>, i: nat): Option<LogError>
    requires i < |records|
  {
    var e := records[i];
    if !EventShape(e) then Some(InvalidEvent)
    else if e.eventIndex != i then Some(NonContiguousIndex)
    else if e.sessionId != records[0].sessionId then Some(SessionChanged)
    else if e.schemaVersion != records[0].schemaVersion then Some(SchemaChanged)
    else if i > 0 && e.elapsedNs < records[i - 1].elapsedNs then Some(ElapsedMovedBackwards)
    else if i > 0 && records[i - 1].eventType == RunSummary then Some(EventAfterSummary)
    else if e.schemaVersion >= 2 && i == 0 && e.eventType != RunMetadata then Some(MissingMetadata)
    else if e.schemaVersion >= 2 && i > 0 && e.eventType == RunMetadata then Some(MisplacedMetadata)
    else None
  }

  /** Event `i` is the first that does not fit, for this reason. */
  ghost predicate RefusedAt(records: seq<LinkEvent>, i: nat, error: LogError) {
    i < |records| && AcceptedLog(records[..i]) && FaultOf(records, i) == Some(error)
  }

  /** The loader's loop over its running variables. */
  method LoadLinkEvents(records: seq<LinkEvent>) returns (r: Result<seq<LinkEvent>, LogError>)
    ensures r.Success? <==> AcceptedLog(records)
    ensures r.Success? ==> r.value == records
    ensures r.Failure? ==> exists i: nat :: RefusedAt(records, i, r.error)
  {
    var events: seq<LinkEvent> := [];
    var sessionId: Option<string> := None;
    var schemaVersion: Option<int> := None;
    var previousElapsedNs := -1;
    var summarySeen := false;
    var metadataSeen := false;
    for i := 0 to |records|
      invariant events == records[..i]
      invariant AcceptedLog(events)
      invariant sessionId == if i == 0 then None else Some(records[0].sessionId)
      invariant schemaVersion == if i == 0 then None else Some(records[0].schemaVersion)
      invariant previousElapsedNs == if i == 0 then -1 else records[i - 1].elapsedNs
      invariant summarySeen <==> i > 0 && records[i - 1].eventType == RunSummary
      invariant metadataSeen ==> i > 0
    {
      var event := records[i];
      PrefixFits(records, i);
      if !EventShape(event) {
        assert RefusedAt(records, i, InvalidEvent);
        return Failure(InvalidEvent);
      }
      if event.eventIndex != |events| {
        assert RefusedAt(records, i, NonContiguousIndex);
        return Failure(NonContiguousIndex);
      }
      if sessionId.None? {
        sessionId := Some(event.sessionId);
      } else if event.sessionId != sessionId.value {
        assert RefusedAt(records, i, SessionChanged);
        return Failure(SessionChanged);
      }
      if schemaVersion.None? {
        schemaVersion := Some(event.schemaVersion);
      } else if event.schemaVersion != schemaVersion.value {
        assert RefusedAt(records, i, SchemaChanged);
        return Failure(SchemaChanged);
      }
      if event.elapsedNs < previousElapsedNs {
        assert !InTime(records, i - 1, i);
        assert RefusedAt(records, i, ElapsedMovedBackwards);
        return Failure(ElapsedMovedBackwards);
      }
      if summarySeen {
        assert !EventFits(records, i - 1);
        assert RefusedAt(records, i, EventAfterSummary);
        return Failure(EventAfterSummary);
      }
      if event.schemaVersion >= 2 {
        if events == [] && event.eventType != RunMetadata {
          assert RefusedAt(records, i, MissingMetadata);
          return Failure(MissingMetadata);
        }
        if event.eventType == RunMetadata {
          if metadataSeen || events != [] {
            assert RefusedAt(records, i, MisplacedMetadata);
            return Failure(MisplacedMetadata);
          }
          metadataSeen := true;
        }
      }
      if event.eventType == RunSummary {
        summarySeen := true;
      }
      AcceptedExtends(events, event);
      events := events + [event];
      previousElapsedNs := event.elapsedNs;
    }
    assert records[..|records|] == records;
    return Success(events);
  }

  /** One schema version; version 1 has no metadata event, version 2 exactly one, at the front. */
  predicate StreamMetadataOk(events: seq<LinkEvent>) {
    && events != []
    && (forall k :: 0 <= k < |events| ==> events[k].schemaVersion == events[0].schemaVersion)
    && (forall k :: 0 <= k < |events| ==>
      (events[k].eventType == RunMetadata <==> events[0].schemaVersion != 1 && k == 0))
    && (events[0].eventType == RunMetadata ==> events[0].attributes.Metadata?)
  }

  function ValidateRunSummary(events: seq<LinkEvent>): Result<LinkStatistics, LogError> {
    if events == [] || events[|events| - 1].eventType != RunSummary then Failure(MissingSummary)
    else if exists k :: 0 <= k < |events| - 1 && events[k].eventType == RunSummary then Failure(RepeatedSummary)
    else if !StreamMetadataOk(events) then Failure(MisplacedMetadata)
    else
      var calculated := StatisticsOf(events[..|events| - 1]);
      match events[|events| - 1].attributes
      case Metadata(_) => Failure(BadSummaryFields)
      case Fields(fields) =>
        match FromFields(fields)
        case None => Failure(BadSummaryFields)
        case Some(recorded) => if calculated == recorded then Success(calculated) else Failure(CountersDiffer)
  }

  lemma AcceptedMetadata(events: seq<LinkEvent>)
    requires AcceptedLog(events) && events != []
    ensures StreamMetadataOk(events)
    ensures !exists k :: 0 <= k < |events| - 1 && events[k].eventType == RunSummary
  {
    assert EventFits(events, 0);
    forall k | 0 <= k < |events|
      ensures events[k].schemaVersion == events[0].schemaVersion
      ensures events[k].eventType == RunMetadata <==> events[0].schemaVersion != 1 && k == 0
      ensures events[k].eventType == RunSummary ==> k == |events| - 1
    {
      assert EventFits(events, k);
    }
  }

  /** On an accepted log only the final event and its counters remain to be checked. */
  lemma AcceptedSummary(events: seq<LinkEvent>)
    requires AcceptedLog(events)
    ensures ValidateRunSummary(events).Success? <==>
      && events != []
      && events[|events| - 1].eventType == RunSummary
      && events[|events| - 1].attributes == Fields(ToFields(StatisticsOf(events[..|events| - 1])))
  {
    if events != [] && events[|events| - 1].eventType == RunSummary {
      AcceptedMetadata(events);
      assert EventFits(events, |events| - 1);
      var e := events[|events| - 1];
      SummaryRoundTrip(e.attributes.fields, StatisticsOf(events[..|events| - 1]));
      if FromFields(e.attributes.fields).Some? {
        SummaryRoundTrip(e.attributes.fields, FromFields(e.attributes.fields).value);
      }
    }
  }

  // ---------- the stream ----------

  function LastElapsed(events: seq<LinkEvent>): int {
    if events == [] then 0 else events[|events| - 1].elapsedNs
  }

  /** Stamps events with indices and relative times, counts them and hands them to the sink. */
  class LinkEventStream {
    const sessionId: string
    const startNs: int
    var eventIndex: nat
    var lastElapsedNs: int
    var statistics: LinkStatistics
    var closed: bool
    /** The events the sink accepted. */
    var log: seq<LinkEvent>

    ghost predicate Valid()
      reads this
    {
      && NonBlank(sessionId)
      && eventIndex == |log|
      && lastElapsedNs == LastElapsed(log)
      && lastElapsedNs >= 0
      && statistics == StatisticsOf(log)
      && AcceptedLog(log)
      && (log != [] ==> log[0].sessionId == sessionId && log[0].schemaVersion == SCHEMA_VERSION)
      && (closed <==> log != [] && log[|log| - 1].eventType == RunSummary)
    }

    /** Valid, headed, not closed, and able to stamp an event at `nowNs`. */
    ghost predicate Open(nowNs: int)
      reads this
    {
      Valid() && !closed && log != [] && lastElapsedNs <= nowNs - startNs
    }

    constructor (sessionId: string, startNs: int)
      requires NonBlank(sessionId) && 0 <= startNs
      ensures Valid() && log == [] && !closed
      ensures this.sessionId == sessionId && this.startNs == startNs
    {
      this.sessionId := sessionId;
      this.startNs := startNs;
      eventIndex := 0;
      lastElapsedNs := 0;
      statistics := ZERO_STATISTICS;
      closed := false;
      log := [];
    }

    ghost function Stamp(t: LinkEventType, nowNs: int, packetIndex: Option<int>, attributes: Attributes): LinkEvent
      reads this
    {
      LinkEvent(sessionId, |log|, nowNs - startNs, t, packetIndex, attributes, SCHEMA_VERSION)
    }

    method EmitRaw(t: LinkEventType, nowNs: int, packetIndex: Option<int>, attributes: Attributes)
      returns (r: Result<LinkEvent, LinkError>)
      requires Valid() && !closed
      requires packetIndex.Some? ==> packetIndex.value >= 0
      requires t == RunMetadata <==> log == []
      requires t == RunMetadata <==> attributes.Metadata?
      requires attributes.Metadata? ==> attributes.metadata.Valid()
      requires t == RunMetadata || t == RunSummary ==> packetIndex == None
      modifies this
      ensures t != RunSummary ==> Valid() && !closed
      ensures r.Success? <==> old(lastElapsedNs) <= nowNs - startNs
      ensures r.Success? ==>
        && r.value == old(Stamp(t, nowNs, packetIndex, attributes))
        && log == old(log) + [r.value]
        && AcceptedLog(log)
        && eventIndex == |log| && lastElapsedNs == LastElapsed(log) && statistics == StatisticsOf(log)
        && !closed
      ensures r.Failure? ==> r.error == ClockMovedBackwards && Valid() && log == old(log)
    {
      var elapsedNs := nowNs - startNs;
      if elapsedNs < lastElapsedNs {
        return Failure(ClockMovedBackwards);
      }
      var event := LinkEvent(sessionId, eventIndex, elapsedNs, t, packetIndex, attributes, SCHEMA_VERSION);
      AcceptedExtends(log, event);
      StatisticsAppend(log, event);
      log := log + [event];
      statistics := Incremented(statistics, t);
      eventIndex := eventIndex + 1;
      lastElapsedNs := elapsedNs;
      return Success(event);
    }

    method EmitRunMetadata(metadata: LinkRunMetadata, nowNs: int) returns (r: Result<LinkEvent, LinkError>)
      requires Valid() && metadata.Valid()
      modifies this
      ensures Valid()
      ensures r.Success? <==> !old(closed) && old(log) == [] && old(lastElapsedNs) <= nowNs - startNs
      ensures r.Success? ==>
        log == old(log) + [old(Stamp(RunMetadata, nowNs, None, Metadata(metadata)))] && Open(nowNs)
      ensures r.Failure? ==> log == old(log)
      ensures r.Failure? ==>
        r.error ==
        if old(closed) then StreamClosed else if old(log) != [] then MetadataNotFirst else ClockMovedBackwards
    {
      if closed {
        return Failure(StreamClosed);
      }
      if eventIndex != 0 {
        return Failure(MetadataNotFirst);
      }
      r := EmitRaw(RunMetadata, nowNs, None, Metadata(metadata));
    }

    method Emit(t: LinkEventType, nowNs: int, packetIndex: nat, fields: map<Field, Scalar>)
      returns (r: Result<LinkEvent, LinkError>)
      requires Valid()
      modifies this
      ensures Valid() && closed == old(closed)
      ensures r.Success? <==>
        && !old(closed) && old(log) != []
        && t != RunMetadata && t != RunSummary
        && old(lastElapsedNs) <= nowNs - startNs
      ensures r.Success? ==> log == old(log) + [old(Stamp(t, nowNs, Some(packetIndex), Fields(fields)))]
      ensures r.Success? ==> r.value == log[|old(log)|] && Open(nowNs)
      ensures r.Failure? ==> log == old(log)
      ensures r.Failure? ==>
        r.error ==
        if old(closed) then StreamClosed else if old(log) == [] then MetadataMissing
        else if t == RunMetadata || t == RunSummary then WrongEmitter else ClockMovedBackwards
    {
      if closed {
        return Failure(StreamClosed);
      }
      if eventIndex == 0 {
        return Failure(MetadataMissing);
      }
      if t == RunMetadata || t == RunSummary {
        return Failure(WrongEmitter);
      }
      r := EmitRaw(t, nowNs, Some(packetIndex), Fields(fields));
    }

    method EmitSummary(nowNs: int) returns (r: Result<LinkEvent, LinkError>)
      requires Valid()
      modifies this
      ensures Valid()
      ensures r.Success? <==> !old(closed) && old(log) != [] && old(lastElapsedNs) <= nowNs - startNs
      ensures r.Success? ==> closed
      ensures r.Success? ==>
        && log == old(log) + [old(Stamp(RunSummary, nowNs, None, Fields(ToFields(StatisticsOf(log)))))]
        && r.value == log[|old(log)|]
      ensures r.Failure? ==> log == old(log) && closed == old(closed)
      ensures r.Failure? ==>
        r.error ==
        if old(closed) then StreamClosed else if old(log) == [] then MetadataMissing else ClockMovedBackwards
    {
      if closed {
        return Failure(StreamClosed);
      }
      if eventIndex == 0 {
        return Failure(MetadataMissing);
      }
      r := EmitRaw(RunSummary, nowNs, None, Fields(ToFields(statistics)));
      if r.Success? {
        closed := true;
      }
    }
  }
}
