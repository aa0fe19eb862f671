/** The receiver's alarm log, event by event, from what was received: no engine and no recorder in between. */
module ReceiverRecord {
  import opened Wrappers
  import opened AlarmEvents
  import opened Alarms
  import opened Codec
  import AlarmHistory
  import LogMeaning
  import Receiver

  /** The number of nanoseconds since the first reading, never negative. */
  function Since(r: Recording, reading: nat): int {
    var d := r.clock(reading) - r.clock(0);
    if d < 0 then 0 else d
  }

  /** The log opens with the run's metadata. */
  lemma {:induction false} LogOpens(r: Recording, entries: seq<Entry>)
    ensures LogOf(r, entries)[0] == AlarmEvent(r.sessionId, 0, 0, RunMetadata, None, Metadata(r.metadata), 1)
  {
    if entries == [] {
    } else {
      LogOpens(r, entries[..|entries| - 1]);
    }
  }

  /** Then it holds the entries, one event each, in order, with every field. */
  lemma {:induction false} LogHolds(r: Recording, entries: seq<Entry>, k: nat)
    requires k < |entries|
    ensures var t, e := entries[k].transition, LogOf(r, entries)[k + 1];
      && e.sessionId == r.sessionId && e.eventIndex == k + 1 && e.elapsedNs == Since(r, k + 1)
      && e.schemaVersion == 1 && e.packetSequence == Some(entries[k].sequence)
      && (e.eventType == AlarmRaised <==> t.transition == Raised)
      && (e.eventType == AlarmUpdated <==> t.transition == Updated)
      && (e.eventType == AlarmCleared <==> t.transition == Cleared)
      && e.attributes == Alarm(t.severity, t.code, t.identity, t.observed, t.threshold)
  {
    if k < |entries| - 1 {
      LogHolds(r, entries[..|entries| - 1], k);
    }
  }

  /** Closing adds one summary, which counts the events before it by type. */
  lemma ClosingAdds(r: Recording, entries: seq<Entry>)
    ensures var open, closed := LogOf(r, entries), ClosedLog(r, entries);
      && |closed| == |entries| + 2 && closed[..|entries| + 1] == open
      && var e, n := closed[|entries| + 1], |entries| + 1;
      && e.sessionId == r.sessionId && e.eventIndex == n && e.elapsedNs == Since(r, n) && e.eventType == RunSummary
      && e.packetSequence == None && e.schemaVersion == 1 && e.attributes.Summary?
      && e.attributes.raised == |LogMeaning.AlarmsOf(open, AlarmRaised)|
      && e.attributes.updated == |LogMeaning.AlarmsOf(open, AlarmUpdated)|
      && e.attributes.cleared == |LogMeaning.AlarmsOf(open, AlarmCleared)|
      && e.attributes.total == |entries|
  {
    hide LogMeaning.AlarmsOf, CountOf, LogOf;
    var open := LogOf(r, entries);
    LogMeaning.AlarmsCounted(open, AlarmRaised);
    LogMeaning.AlarmsCounted(open, AlarmUpdated);
    LogMeaning.AlarmsCounted(open, AlarmCleared);
    CountersCountTransitions(r, entries);
  }

  /** What must be logged of these packets: for each, what the packets before it make it announce. */
  ghost function History(policy: AlarmPolicy, packets: seq<TelemetryPacket>): seq<Entry>
    requires forall k :: 0 <= k < |packets| ==> Unsigned32(packets[k].sequence)
  {
    if packets == [] then []
    else
      var init, last := packets[..|packets| - 1], packets[|packets| - 1];
      assert Unsigned32(packets[|packets| - 1].sequence);
      History(policy, init) + EntriesFor(last.sequence, AlarmHistory.Announced(policy, init, last))
  }

  /** What the receiver has logged is that. */
  lemma {:induction false} EntriesAreHistory(policy: AlarmPolicy, packets: seq<TelemetryPacket>)
    requires policy.Valid()
    requires forall k :: 0 <= k < |packets| ==> Unsigned32(packets[k].sequence)
    ensures Receiver.EntriesOf(policy, packets) == History(policy, packets)
  {
    hide Transitions, AlarmHistory.Announced;
    if packets == [] {
    } else {
      var init, last := packets[..|packets| - 1], packets[|packets| - 1];
      EntriesAreHistory(policy, init);
      AlarmHistory.TransitionsAreAnnounced(policy, init, last);
    }
  }
}
