/**
 * What the loaders of event logs accept, said of neighbouring events only, and what that protects: an
 * accepted log can be cut short, but not thinned out, reordered or extended after its summary.
 */
module LogMeaning {
  import opened Wrappers
  import AlarmEvents
  import LinkEvents
  import Texts

  // ---------- link logs ----------

  /** A record of its own. */
  predicate LinkRecord(e: LinkEvents.LinkEvent) {
    && Texts.NonBlank(e.sessionId) && e.eventIndex >= 0 && e.elapsedNs >= 0
    && (e.packetIndex.Some? ==> e.packetIndex.value >= 0)
    && match e.eventType
       case RunMetadata =>
         e.schemaVersion == 2 && e.packetIndex == None && e.attributes.Metadata? && e.attributes.metadata.Valid()
       case RunSummary => e.schemaVersion in {1, 2} && e.packetIndex == None && e.attributes.Fields?
       case _ => e.schemaVersion in {1, 2} && e.attributes.Fields?
  }

  /** A record that may open a log. */
  predicate LinkOpens(e: LinkEvents.LinkEvent) {
    LinkRecord(e) && e.eventIndex == 0 && (e.schemaVersion == 2 ==> e.eventType == LinkEvents.RunMetadata)
  }

  /** A record that may follow another. */
  predicate LinkFollows(d: LinkEvents.LinkEvent, e: LinkEvents.LinkEvent) {
    && LinkRecord(e)
    && e.eventIndex == d.eventIndex + 1
    && e.sessionId == d.sessionId && e.schemaVersion == d.schemaVersion
    && d.elapsedNs <= e.elapsedNs
    && d.eventType != LinkEvents.RunSummary
    && e.eventType != LinkEvents.RunMetadata
  }

  ghost predicate LinkChain(log: seq<LinkEvents.LinkEvent>) {
    log != [] ==>
      && LinkOpens(log[0])
      && forall k {:trigger log[k]} :: 0 < k < |log| ==> LinkFollows(log[k - 1], log[k])
  }

  lemma LinkShape(e: LinkEvents.LinkEvent)
    ensures LinkEvents.EventShape(e) <==> LinkRecord(e)
  {
  }

  lemma SchemaOfRecord(e: LinkEvents.LinkEvent)
    requires LinkRecord(e)
    ensures e.schemaVersion == 1 || e.schemaVersion == 2
    ensures e.eventType == LinkEvents.RunMetadata ==> e.schemaVersion == 2
  {
  }

  lemma LinkNumbered(log: seq<LinkEvents.LinkEvent>, k: nat)
    requires LinkEvents.AcceptedLog(log) && k < |log|
    ensures log[k].eventIndex == k
    ensures log[k].sessionId == log[0].sessionId && log[k].schemaVersion == log[0].schemaVersion
  {
    assert LinkEvents.EventFits(log, k);
  }

  lemma LinkStep(log: seq<LinkEvents.LinkEvent>, e: LinkEvents.LinkEvent)
    requires LinkEvents.AcceptedLog(log)
    requires if log == [] then LinkOpens(e) else LinkFollows(log[|log| - 1], e)
    ensures LinkEvents.AcceptedLog(log + [e])
  {
    hide LinkRecord, LinkEvents.EventShape, LinkEvents.AcceptedLog;
    LinkShape(e);
    SchemaOfRecord(e);
    if log != [] {
      LinkNumbered(log, |log| - 1);
    }
    LinkEvents.AcceptedExtends(log, e);
  }

  lemma {:induction false} LinkChainFits(log: seq<LinkEvents.LinkEvent>)
    requires LinkChain(log)
    ensures LinkEvents.AcceptedLog(log)
  {
    hide LinkOpens, LinkFollows, LinkEvents.EventFits;
    if log == [] {
    } else {
      var n := |log| - 1;
      LinkChainFits(log[..n]);
      assert log == log[..n] + [log[n]];
      assert n > 0 ==> LinkFollows(log[n - 1], log[n]);
      LinkStep(log[..n], log[n]);
    }
  }

  /** The link loader accepts a log exactly if it is such a chain. */
  lemma LinkLogMeans(log: seq<LinkEvents.LinkEvent>)
    ensures LinkEvents.AcceptedLog(log) <==> LinkChain(log)
  {
    hide LinkRecord, LinkEvents.EventShape;
    if LinkEvents.AcceptedLog(log) && log != [] {
      assert LinkEvents.EventFits(log, 0);
      LinkShape(log[0]);
      SchemaOfRecord(log[0]);
      forall k | 0 < k < |log|
        ensures LinkFollows(log[k - 1], log[k])
      {
        assert LinkEvents.EventFits(log, k - 1) && LinkEvents.EventFits(log, k) && LinkEvents.InTime(log, k - 1, k);
        LinkShape(log[k]);
        SchemaOfRecord(log[k]);
      }
    }
    if LinkChain(log) {
      LinkChainFits(log);
    }
  }

  /** A log can be cut short: every beginning of it is accepted. */
  lemma LinkPrefixAccepted(log: seq<LinkEvents.LinkEvent>, n: nat)
    requires LinkEvents.AcceptedLog(log) && n <= |log|
    ensures LinkEvents.AcceptedLog(log[..n])
  {
    hide LinkFollows, LinkOpens;
    LinkLogMeans(log);
    assert LinkChain(log[..n]);
    LinkLogMeans(log[..n]);
  }

  /** It cannot be thinned out: without one of its events, other than the last, it is refused. */
  lemma LinkRemovalRefused(log: seq<LinkEvents.LinkEvent>, k: nat)
    requires LinkEvents.AcceptedLog(log) && k + 1 < |log|
    ensures !LinkEvents.AcceptedLog(log[..k] + log[k + 1..])
  {
    var thin := log[..k] + log[k + 1..];
    LinkNumbered(log, k + 1);
    assert thin[k] == log[k + 1];
    if LinkEvents.AcceptedLog(thin) {
      LinkNumbered(thin, k);
    }
  }

  /** It cannot be reordered: one arrangement of its events is accepted. */
  lemma LinkOrderIsFixed(x: seq<LinkEvents.LinkEvent>, y: seq<LinkEvents.LinkEvent>)
    requires LinkEvents.AcceptedLog(x) && LinkEvents.AcceptedLog(y) && multiset(x) == multiset(y)
    ensures x == y
  {
    hide LinkEvents.AcceptedLog;
    assert |multiset(x)| == |x| && |multiset(y)| == |y|;
    forall k | 0 <= k < |x|
      ensures x[k] == y[k]
    {
      assert x[k] in multiset(y);
      var j :| 0 <= j < |y| && y[j] == x[k];
      LinkNumbered(x, k);
      LinkNumbered(y, j);
    }
  }

  /** The events of one type. */
  ghost function LinkEventsOf(events: seq<LinkEvents.LinkEvent>, t: LinkEvents.LinkEventType): set<nat> {
    set k: nat | k < |events| && events[k].eventType == t
  }

  lemma {:induction false} LinkEventsCounted(events: seq<LinkEvents.LinkEvent>, t: LinkEvents.LinkEventType)
    ensures LinkEvents.CountOf(events, t) == |LinkEventsOf(events, t)|
  {
    if events == [] {
      assert LinkEventsOf(events, t) == {};
    } else {
      var n := |events| - 1;
      LinkEventsCounted(events[..n], t);
      if events[n].eventType == t {
        assert LinkEventsOf(events, t) == LinkEventsOf(events[..n], t) + {n};
      } else {
        assert LinkEventsOf(events, t) == LinkEventsOf(events[..n], t);
      }
    }
  }

  /**
   * The summary check, on any list of events: it passes exactly if the last event is the only summary, all
   * share one schema, a header stands first under schema 2 and nowhere under schema 1, and the summary
   * holds the counters of the events before it, which are then the result.
   */
  lemma RunSummaryMeans(log: seq<LinkEvents.LinkEvent>, s: LinkEvents.LinkStatistics)
    ensures LinkEvents.ValidateRunSummary(log) == Success(s) <==>
      && log != []
      && var n := |log| - 1;
      && log[n].eventType == LinkEvents.RunSummary
      && (forall k :: 0 <= k < n ==> log[k].eventType != LinkEvents.RunSummary)
      && (forall k :: 0 <= k <= n ==> log[k].schemaVersion == log[0].schemaVersion)
      && (forall k :: 0 < k <= n ==> log[k].eventType != LinkEvents.RunMetadata)
      && (log[0].eventType == LinkEvents.RunMetadata <==> log[0].schemaVersion != 1)
      && (log[0].eventType == LinkEvents.RunMetadata ==> log[0].attributes.Metadata?)
      && s == LinkEvents.StatisticsOf(log[..n])
      && log[n].attributes == LinkEvents.Fields(LinkEvents.ToFields(s))
  {
    hide LinkEvents.StatisticsOf, LinkEvents.FromFields, LinkEvents.ToFields;
    if log != [] && log[|log| - 1].attributes.Fields? {
      LinkEvents.SummaryRoundTrip(log[|log| - 1].attributes.fields, LinkEvents.StatisticsOf(log[..|log| - 1]));
    }
  }

  /** The counters written for a log name every counted type, and give the number of its events. */
  lemma WrittenCounts(log: seq<LinkEvents.LinkEvent>, t: LinkEvents.Counted)
    ensures var written := LinkEvents.ToFields(LinkEvents.StatisticsOf(log));
      && (forall f :: f in written <==> f.Count?)
      && written[LinkEvents.Count(t)] == LinkEvents.Number(|LinkEventsOf(log, t)|)
  {
    hide LinkEvents.CountOf, LinkEventsOf;
    LinkEventsCounted(log, t);
  }

  // ---------- alarm logs ----------

  predicate AlarmRecord(e: AlarmEvents.AlarmEvent) {
    && Texts.ValidText(e.sessionId) && e.eventIndex >= 0 && e.elapsedNs >= 0 && e.schemaVersion == 1
    && match e.eventType
       case RunMetadata => e.packetSequence == None && e.attributes.Metadata? && e.attributes.metadata.Valid()
       case RunSummary =>
         && e.packetSequence == None && e.attributes.Summary?
         && 0 <= e.attributes.raised && 0 <= e.attributes.updated && 0 <= e.attributes.cleared
         && e.attributes.total == e.attributes.raised + e.attributes.updated + e.attributes.cleared
       case _ =>
         e.packetSequence.Some? && 0 <= e.packetSequence.value <= 4_294_967_295 && e.attributes.Alarm?
  }

  predicate AlarmOpens(e: AlarmEvents.AlarmEvent) {
    AlarmRecord(e) && e.eventIndex == 0 && e.eventType == AlarmEvents.RunMetadata
  }

  predicate AlarmFollows(d: AlarmEvents.AlarmEvent, e: AlarmEvents.AlarmEvent) {
    && AlarmRecord(e)
    && e.eventIndex == d.eventIndex + 1
    && e.sessionId == d.sessionId
    && d.elapsedNs <= e.elapsedNs
    && d.eventType != AlarmEvents.RunSummary
    && e.eventType != AlarmEvents.RunMetadata
  }

  ghost function AlarmsOf(log: seq<AlarmEvents.AlarmEvent>, t: AlarmEvents.AlarmEventType): set<nat> {
    set k: nat | k < |log| && log[k].eventType == t
  }

  /** A chain whose summary, if it has one, counts the transitions by type. */
  ghost predicate AlarmChain(log: seq<AlarmEvents.AlarmEvent>) {
    log != [] ==>
      && AlarmOpens(log[0])
      && (forall k {:trigger log[k]} :: 0 < k < |log| ==> AlarmFollows(log[k - 1], log[k]))
      && var last := log[|log| - 1];
      last.eventType == AlarmEvents.RunSummary ==>
        && last.attributes.Summary?
        && last.attributes.raised == |AlarmsOf(log, AlarmEvents.AlarmRaised)|
        && last.attributes.updated == |AlarmsOf(log, AlarmEvents.AlarmUpdated)|
        && last.attributes.cleared == |AlarmsOf(log, AlarmEvents.AlarmCleared)|
  }

  lemma AlarmShape(e: AlarmEvents.AlarmEvent)
    ensures AlarmEvents.EventShape(e) <==> AlarmRecord(e)
  {
  }

  lemma AlarmNumbered(log: seq<AlarmEvents.AlarmEvent>, k: nat)
    requires AlarmEvents.WellFormed(log) && k < |log|
    ensures log[k].eventIndex == k && log[k].sessionId == log[0].sessionId
    ensures AlarmEvents.EventShape(log[k])
  {
    assert AlarmEvents.EventFits(log, k);
  }

  lemma AlarmStep(log: seq<AlarmEvents.AlarmEvent>, e: AlarmEvents.AlarmEvent)
    requires AlarmEvents.WellFormed(log)
    requires if log == [] then AlarmOpens(e) else AlarmFollows(log[|log| - 1], e)
    ensures AlarmEvents.WellFormed(log + [e])
  {
    hide AlarmRecord, AlarmEvents.EventShape, AlarmEvents.WellFormed;
    AlarmShape(e);
    if log != [] {
      AlarmNumbered(log, |log| - 1);
    }
    AlarmEvents.FormedExtends(log, e);
  }

  /** A chain, whatever its summary counts. */
  ghost predicate AlarmLinks(log: seq<AlarmEvents.AlarmEvent>) {
    log != [] ==>
      && AlarmOpens(log[0])
      && forall k {:trigger log[k]} :: 0 < k < |log| ==> AlarmFollows(log[k - 1], log[k])
  }

  lemma {:induction false} AlarmLinksFit(log: seq<AlarmEvents.AlarmEvent>)
    requires AlarmLinks(log)
    ensures AlarmEvents.WellFormed(log)
  {
    hide AlarmOpens, AlarmFollows, AlarmEvents.EventFits;
    if log == [] {
    } else {
      var n := |log| - 1;
      AlarmLinksFit(log[..n]);
      assert log == log[..n] + [log[n]];
      assert n > 0 ==> AlarmFollows(log[n - 1], log[n]);
      AlarmStep(log[..n], log[n]);
    }
  }

  lemma AlarmFormMeans(log: seq<AlarmEvents.AlarmEvent>)
    ensures AlarmEvents.WellFormed(log) <==> AlarmLinks(log)
  {
    hide AlarmRecord, AlarmEvents.EventShape;
    if AlarmEvents.WellFormed(log) && log != [] {
      assert AlarmEvents.EventFits(log, 0);
      AlarmShape(log[0]);
      forall k | 0 < k < |log|
        ensures AlarmFollows(log[k - 1], log[k])
      {
        assert AlarmEvents.EventFits(log, k - 1) && AlarmEvents.EventFits(log, k) && AlarmEvents.InTime(log, k - 1, k);
        AlarmShape(log[k]);
      }
    }
    if AlarmLinks(log) {
      AlarmLinksFit(log);
    }
  }

  lemma {:induction false} AlarmsCounted(log: seq<AlarmEvents.AlarmEvent>, t: AlarmEvents.AlarmEventType)
    ensures AlarmEvents.CountOf(log, t) == |AlarmsOf(log, t)|
  {
    if log == [] {
      assert AlarmsOf(log, t) == {};
    } else {
      var n := |log| - 1;
      AlarmsCounted(log[..n], t);
      if log[n].eventType == t {
        assert AlarmsOf(log, t) == AlarmsOf(log[..n], t) + {n};
      } else {
        assert AlarmsOf(log, t) == AlarmsOf(log[..n], t);
      }
    }
  }

  lemma SummaryNotCounted(log: seq<AlarmEvents.AlarmEvent>, t: AlarmEvents.AlarmEventType)
    requires log != [] && log[|log| - 1].eventType != t
    ensures AlarmEvents.CountOf(log[..|log| - 1], t) == |AlarmsOf(log, t)|
  {
    AlarmsCounted(log, t);
  }

  /** The alarm loader accepts a log exactly if it is such a chain. */
  lemma AlarmLogMeans(log: seq<AlarmEvents.AlarmEvent>)
    ensures AlarmEvents.AcceptedLog(log) <==> AlarmChain(log)
  {
    hide AlarmOpens, AlarmFollows, AlarmEvents.WellFormed, AlarmsOf, AlarmEvents.CountOf;
    AlarmFormMeans(log);
    if AlarmEvents.HasSummary(log) {
      SummaryNotCounted(log, AlarmEvents.AlarmRaised);
      SummaryNotCounted(log, AlarmEvents.AlarmUpdated);
      SummaryNotCounted(log, AlarmEvents.AlarmCleared);
      if AlarmEvents.WellFormed(log) {
        AlarmNumbered(log, |log| - 1);
        AlarmShape(log[|log| - 1]);
      }
    }
  }

  /** An alarm log, too, can be cut short before its last event. */
  lemma AlarmPrefixAccepted(log: seq<AlarmEvents.AlarmEvent>, n: nat)
    requires AlarmEvents.AcceptedLog(log) && n < |log|
    ensures AlarmEvents.AcceptedLog(log[..n])
  {
    hide AlarmFollows, AlarmOpens;
    AlarmEvents.PrefixFormed(log, n);
    if n > 0 {
      assert AlarmEvents.EventFits(log, n - 1);
    }
  }

  lemma AlarmRemovalRefused(log: seq<AlarmEvents.AlarmEvent>, k: nat)
    requires AlarmEvents.AcceptedLog(log) && k + 1 < |log|
    ensures !AlarmEvents.AcceptedLog(log[..k] + log[k + 1..])
  {
    var thin := log[..k] + log[k + 1..];
    AlarmNumbered(log, k + 1);
    assert thin[k] == log[k + 1];
    if AlarmEvents.AcceptedLog(thin) {
      AlarmNumbered(thin, k);
    }
  }

  lemma AlarmOrderIsFixed(x: seq<AlarmEvents.AlarmEvent>, y: seq<AlarmEvents.AlarmEvent>)
    requires AlarmEvents.AcceptedLog(x) && AlarmEvents.AcceptedLog(y) && multiset(x) == multiset(y)
    ensures x == y
  {
    hide AlarmEvents.WellFormed;
    assert |multiset(x)| == |x| && |multiset(y)| == |y|;
    forall k | 0 <= k < |x|
      ensures x[k] == y[k]
    {
      assert x[k] in multiset(y);
      var j :| 0 <= j < |y| && y[j] == x[k];
      AlarmNumbered(x, k);
      AlarmNumbered(y, j);
    }
  }
}
