/** Normalization loses nothing: every record it shows can be rebuilt from its timeline entry. */
module SessionRecovery {
  import opened Wrappers
  import opened Inspection
  import opened SequenceInspection
  import opened SessionModels
  import opened TelemetryRecording
  import AlarmEvents
  import Codec
  import LinkEvents
  import Texts

  /** The row behind a decoded telemetry entry. */
  function RowOf(t: TimelineEntry): Option<RecordedTelemetryRecord> {
    if t.kind == TelemetryPacketEntry && t.attributes.Readings? && t.receivedAt.Some? && t.receivedAt.value >= 0.0
       && t.sourceIndex >= 0 && Codec.EncodePacket(t.attributes.packet).Success?
    then Some(RecordedTelemetryRecord(
      t.sourceIndex, t.receivedAt.value, Codec.EncodePacket(t.attributes.packet).value))
    else None
  }

  /** A decoded entry determines its row to the byte; a rejected row never decodes. */
  lemma TelemetryEntryRecovers(r: RecordedTelemetryRecord)
    ensures Codec.DecodePacket(r.packet).Success? <==> RowOf(TelemetryEntry(r)) == Some(r)
    ensures Codec.DecodePacket(r.packet).Failure? <==> TelemetryEntry(r).kind == TelemetryRejected
  {
    hide Codec.DecodePacket, Codec.EncodePacket;
    if Codec.DecodePacket(r.packet).Success? { Codec.EncodeDecode(r.packet); }
  }

  /** The event behind an alarm entry of the given session. */
  function AlarmOf(t: TimelineEntry, sessionId: string): Option<AlarmEvents.AlarmEvent> {
    if t.eventType.AlarmType? && t.elapsedNs.Some? && t.attributes.OfAlarm? then
      Some(AlarmEvents.AlarmEvent(sessionId, t.sourceIndex, t.elapsedNs.value, t.eventType.alarm, t.packetSequence,
        t.attributes.alarm, AlarmEvents.SCHEMA_VERSION))
    else None
  }

  /** The event behind a link entry of the given session and schema. */
  function LinkEventOf(t: TimelineEntry, sessionId: string, schemaVersion: int): Option<LinkEvents.LinkEvent> {
    if t.eventType.LinkType? && t.elapsedNs.Some? && t.attributes.OfLink? then
      Some(LinkEvents.LinkEvent(sessionId, t.sourceIndex, t.elapsedNs.value, t.eventType.link, t.packetIndex,
        t.attributes.link, schemaVersion))
    else None
  }

  function AlarmsOf(ts: seq<TimelineEntry>, sessionId: string): seq<Option<AlarmEvents.AlarmEvent>> {
    seq(|ts|, k requires 0 <= k < |ts| => AlarmOf(ts[k], sessionId))
  }

  function LinkEventsOf(ts: seq<TimelineEntry>, sessionId: string, schemaVersion: int)
    : seq<Option<LinkEvents.LinkEvent>>
  {
    seq(|ts|, k requires 0 <= k < |ts| => LinkEventOf(ts[k], sessionId, schemaVersion))
  }

  function TransitionEvents(events: seq<AlarmEvents.AlarmEvent>): seq<Option<AlarmEvents.AlarmEvent>> {
    if events == [] then []
    else
      var last := events[|events| - 1];
      TransitionEvents(events[..|events| - 1])
      + (if AlarmEvents.IsTransition(last.eventType) then [Some(last)] else [])
  }

  function PacketEvents(events: seq<LinkEvents.LinkEvent>): seq<Option<LinkEvents.LinkEvent>> {
    if events == [] then []
    else
      var last := events[|events| - 1];
      PacketEvents(events[..|events| - 1]) + (if IsContext(last.eventType) then [] else [Some(last)])
  }

  /** The alarm lane's entries are the log's transitions, all of them, in order, with every field. */
  lemma {:induction false} AlarmLaneRecovers(s: seq<Sighting>, events: seq<AlarmEvents.AlarmEvent>, sessionId: string)
    requires AlarmsInRange(events) && forall k :: 0 <= k < |events| ==> events[k].sessionId == sessionId
    ensures AlarmsOf(AlarmTimeline(s, events), sessionId) == TransitionEvents(events)
  {
    hide IndicesWith, Texts.ValidText;
    if events == [] {
    } else {
      var init, last := events[..|events| - 1], events[|events| - 1];
      AlarmLaneRecovers(s, init, sessionId);
      if Alarmed(last) {
        assert AlarmsOf(AlarmTimeline(s, init) + [AlarmEntry(s, last)], sessionId) ==
          AlarmsOf(AlarmTimeline(s, init), sessionId) + [AlarmOf(AlarmEntry(s, last), sessionId)];
      } else {
        assert AlarmTimeline(s, init) + [] == AlarmTimeline(s, init);
      }
    }
  }

  /** The link lane's entries are the log's packet events, all of them, in order, with every field. */
  lemma {:induction false} LinkLaneRecovers(events: seq<LinkEvents.LinkEvent>, sessionId: string, schemaVersion: int)
    requires forall k :: 0 <= k < |events| ==>
      events[k].sessionId == sessionId && events[k].schemaVersion == schemaVersion
    ensures LinkEventsOf(LinkTimeline(events), sessionId, schemaVersion) == PacketEvents(events)
  {
    if events == [] {
    } else {
      var init, last := events[..|events| - 1], events[|events| - 1];
      LinkLaneRecovers(init, sessionId, schemaVersion);
      if IsContext(last.eventType) {
        assert LinkTimeline(init) + [] == LinkTimeline(init);
      } else {
        assert LinkEventsOf(LinkTimeline(init) + [LinkEntry(last)], sessionId, schemaVersion) ==
          LinkEventsOf(LinkTimeline(init), sessionId, schemaVersion)
          + [LinkEventOf(LinkEntry(last), sessionId, schemaVersion)];
      }
    }
  }
}
