/** When the link sends: no delivery before its due time or during its hold, and none later than it must. */
module LinkTiming {
  import opened Wrappers
  import opened Impairments
  import opened Schedule
  import opened LinkEvents
  import opened LinkRun
  import LinkEvidence
  import LinkOrder

  // ---------- never early ----------

  /** The hold of a delivery is over once enough packets have come, or all that will. */
  predicate HoldOver(setup: Setup, x: ScheduledDatagram, received: nat) {
    x.releaseAfterPacket < received || setup.maxPackets == Some(received)
  }

  /** The highest packet number sent, or -1. */
  function Highest(output: seq<ScheduledDatagram>): int {
    if output == [] then -1 else Max(Highest(output[..|output| - 1]), output[|output| - 1].packetIndex)
  }

  lemma HighestAppend(output: seq<ScheduledDatagram>, x: ScheduledDatagram)
    ensures Highest(output + [x]) == Max(Highest(output), x.packetIndex)
  {
    assert (output + [x])[..|output|] == output;
  }

  lemma {:induction false} HighestIsLargest(output: seq<ScheduledDatagram>)
    ensures forall a :: 0 <= a < |output| ==> output[a].packetIndex <= Highest(output)
    ensures output != [] ==> exists a :: 0 <= a < |output| && output[a].packetIndex == Highest(output)
  {
    if output == [] {
    } else {
      var n := |output| - 1;
      HighestIsLargest(output[..n]);
      if Highest(output) == output[n].packetIndex {
      } else {
        var a :| 0 <= a < n && output[..n][a].packetIndex == Highest(output[..n]);
        assert output[a].packetIndex == Highest(output);
      }
    }
  }

  /**
   * If event `j` forwards a delivery, it is the next one of the output, and by the log itself it was
   * due and its hold was over. If it notes a reordering, the next one of the output is a delivery that a
   * higher packet number has gone before.
   */
  ghost predicate EventInTime(setup: Setup, output: seq<ScheduledDatagram>, log: seq<LinkEvent>, j: nat)
    requires j < |log|
  {
    var c := StatisticsOf(log[..j]);
    var k := c.deliveriesForwarded;
    && (log[j].eventType == PacketForwarded ==>
      && k < |output|
      && var x := output[k];
      && log[j].packetIndex == Some(x.packetIndex)
      && log[j].attributes == Fields(ForwardFields(x))
      && x.dueAtNs - setup.startNs <= log[j].elapsedNs
      && HoldOver(setup, x, c.packetsReceived))
    && (log[j].eventType == PacketReordered ==>
      && k < |output|
      && var x, highest := output[k], Highest(output[..k]);
      && x.packetIndex < highest
      && log[j].packetIndex == Some(x.packetIndex)
      && log[j].attributes == Fields(ReorderFields(highest, x)))
  }

  ghost predicate InTime(setup: Setup, output: seq<ScheduledDatagram>, log: seq<LinkEvent>) {
    forall j :: 0 <= j < |log| ==> EventInTime(setup, output, log, j)
  }

  lemma InTimeAppend(
    setup: Setup, output: seq<ScheduledDatagram>, more: seq<ScheduledDatagram>, log: seq<LinkEvent>, e: LinkEvent)
    requires InTime(setup, output, log)
    requires EventInTime(setup, output + more, log + [e], |log|)
    ensures InTime(setup, output + more, log + [e])
  {
    hide StatisticsOf, HoldOver, Highest, ReorderFields, ForwardFields;
    var longer := log + [e];
    forall j | 0 <= j < |longer|
      ensures EventInTime(setup, output + more, longer, j)
    {
      if j < |log| {
        assert EventInTime(setup, output, log, j);
        assert longer[..j] == log[..j];
        var k := StatisticsOf(log[..j]).deliveriesForwarded;
        if k < |output| { assert (output + more)[..k] == output[..k]; }
      }
    }
  }

  lemma InTimeGrows(
    setup: Setup, output: seq<ScheduledDatagram>, more: seq<ScheduledDatagram>, log: seq<LinkEvent>)
    requires InTime(setup, output, log)
    ensures InTime(setup, output + more, log)
  {
    hide StatisticsOf, HoldOver, Highest, ReorderFields, ForwardFields;
    forall j | 0 <= j < |log|
      ensures EventInTime(setup, output + more, log, j)
    {
      assert EventInTime(setup, output, log, j);
      var k := StatisticsOf(log[..j]).deliveriesForwarded;
      if k < |output| { assert (output + more)[..k] == output[..k]; }
    }
  }

  lemma LoggedInTime(
    setup: Setup, output: seq<ScheduledDatagram>, log: seq<LinkEvent>, t: LinkEventType, nowNs: int,
    packetIndex: nat, fields: map<Field, Scalar>)
    requires InTime(setup, output, log) && t != PacketForwarded && t != PacketReordered
    ensures InTime(setup, output, Logged(setup, log, t, nowNs, packetIndex, fields))
  {
    hide StatisticsOf, InTime;
    InTimeAppend(setup, output, [], log, Stamped(setup, log, t, nowNs, Some(packetIndex), Fields(fields)));
    assert output + [] == output;
  }

  lemma {:induction false} DeliveriesInTime(
    setup: Setup, output: seq<ScheduledDatagram>, log: seq<LinkEvent>, outcome: PacketOutcome, count: nat, nowNs: int)
    requires count <= |outcome.deliveries| && InTime(setup, output, log)
    ensures InTime(setup, output, DeliveriesLog(setup, log, outcome, count, nowNs))
  {
    hide DeliveryFields, InTime, Logged;
    if count == 0 {
    } else {
      DeliveriesInTime(setup, output, log, outcome, count - 1, nowNs);
      LoggedInTime(setup, output, DeliveriesLog(setup, log, outcome, count - 1, nowNs), DeliveryScheduled, nowNs,
        outcome.packetIndex, DeliveryFields(outcome.deliveries[count - 1]));
    }
  }

  lemma EffectsInTime(
    setup: Setup, output: seq<ScheduledDatagram>, log: seq<LinkEvent>, outcome: PacketOutcome, nowNs: int)
    requires outcome.deliveries != [] && InTime(setup, output, log)
    ensures InTime(setup, output, EffectsLog(setup, log, outcome, nowNs))
  {
    hide InTime, Logged;
    var first := outcome.deliveries[0];
    var copies, bit := map[CopyCount := Number(|outcome.deliveries|)], map[BitIndex := BitScalar(first.corruptedBit)];
    var l1 := LoggedIf(setup, log, outcome.Duplicated(), PacketDuplicated, nowNs, outcome.packetIndex, copies);
    var l2 := LoggedIf(setup, l1, first.corruptedBit.Some?, PacketCorrupted, nowNs, outcome.packetIndex, bit);
    LoggedInTime(setup, output, log, PacketDuplicated, nowNs, outcome.packetIndex, copies);
    LoggedInTime(setup, output, l1, PacketCorrupted, nowNs, outcome.packetIndex, bit);
    LoggedInTime(setup, output, l2, PacketDelayed, nowNs, outcome.packetIndex,
      map[DelayField := Number(first.delayMs)]);
  }

  lemma OutcomeInTime(
    setup: Setup, output: seq<ScheduledDatagram>, log: seq<LinkEvent>, raw: Bytes, outcome: PacketOutcome, nowNs: int)
    requires outcome.dropped || outcome.deliveries != []
    requires InTime(setup, output, log)
    ensures InTime(setup, output, OutcomeLog(setup, log, raw, outcome, nowNs))
  {
    hide InTime, Logged, EffectsLog, DeliveriesLog;
    var size := map[PayloadBytes := Number(|raw|)];
    var received := Logged(setup, log, PacketReceived, nowNs, outcome.packetIndex, size);
    LoggedInTime(setup, output, log, PacketReceived, nowNs, outcome.packetIndex, size);
    if outcome.dropped {
      LoggedInTime(setup, output, received, PacketDropped, nowNs, outcome.packetIndex, size);
    } else {
      EffectsInTime(setup, output, received, outcome, nowNs);
      DeliveriesInTime(setup, output, EffectsLog(setup, received, outcome, nowNs), outcome, |outcome.deliveries|,
        nowNs);
    }
  }

  /** The log counts what has come and gone. */
  ghost predicate Counts(s: LinkState) {
    var c := StatisticsOf(s.log);
    && c.packetsReceived == |s.arrivals| && c.deliveriesForwarded == |s.forwarded|
    && s.highestForwarded == Highest(s.forwarded)
  }

  lemma NoteInTime(setup: Setup, s: LinkState, item: ScheduledDatagram, nowNs: int)
    requires InTime(setup, s.forwarded, s.log) && Counts(s)
    ensures var s1 := NoteOvertaken(setup, s, item, nowNs);
      && InTime(setup, s.forwarded + [item], s1.log)
      && Counts(s1) && s1.arrivals == s.arrivals && s1.forwarded == s.forwarded
  {
    hide StatisticsOf, InTime, ReorderFields, Highest;
    if IsOvertaken(s, item) {
      var fields := ReorderFields(s.highestForwarded, item);
      var e := Stamped(setup, s.log, PacketReordered, nowNs, Some(item.packetIndex), Fields(fields));
      LinkEvidence.LoggedStatistics(setup, s.log, PacketReordered, nowNs, item.packetIndex, fields);
      assert (s.log + [e])[..|s.log|] == s.log && (s.forwarded + [item])[..|s.forwarded|] == s.forwarded;
      InTimeAppend(setup, s.forwarded, [item], s.log, e);
    } else {
      InTimeGrows(setup, s.forwarded, [item], s.log);
    }
  }

  lemma ForwardInTime(setup: Setup, s: LinkState, item: ScheduledDatagram, nowNs: int)
    requires InTime(setup, s.forwarded, s.log) && Counts(s)
    requires item.dueAtNs <= nowNs && HoldOver(setup, item, |s.arrivals|)
    ensures var r := Forward(setup, s, item, nowNs);
      InTime(setup, r.forwarded, r.log) && Counts(r) && r.arrivals == s.arrivals
  {
    hide StatisticsOf, InTime, HoldOver, ReorderFields, ForwardFields, NoteOvertaken, Highest;
    var s1 := NoteOvertaken(setup, s, item, nowNs);
    NoteInTime(setup, s, item, nowNs);
    LinkEvidence.LoggedStatistics(setup, s1.log, PacketForwarded, nowNs, item.packetIndex, ForwardFields(item));
    var e := Stamped(setup, s1.log, PacketForwarded, nowNs, Some(item.packetIndex), Fields(ForwardFields(item)));
    assert (s1.log + [e])[..|s1.log|] == s1.log;
    assert s.forwarded + [item] + [] == s.forwarded + [item];
    HighestAppend(s.forwarded, item);
    InTimeAppend(setup, s.forwarded + [item], [], s1.log, e);
  }

  lemma {:induction false} ForwardAllInTime(setup: Setup, s: LinkState, items: seq<ScheduledDatagram>, nowNs: int)
    requires InTime(setup, s.forwarded, s.log) && Counts(s)
    requires forall x :: x in items ==> x.dueAtNs <= nowNs && HoldOver(setup, x, |s.arrivals|)
    ensures var r := ForwardAll(setup, s, items, nowNs);
      InTime(setup, r.forwarded, r.log) && Counts(r) && r.arrivals == s.arrivals
  {
    hide InTime, Counts, HoldOver, Forward;
    if items == [] {
    } else {
      ForwardAllInTime(setup, s, items[..|items| - 1], nowNs);
      ForwardInTime(setup, ForwardAll(setup, s, items[..|items| - 1], nowNs), items[|items| - 1], nowNs);
    }
  }

  lemma SendInTime(setup: Setup, s: LinkState, nowNs: int)
    requires InTime(setup, s.forwarded, s.log) && Counts(s)
    requires s.releasing ==> setup.maxPackets == Some(|s.arrivals|)
    ensures var r := SendReady(setup, s, nowNs); InTime(setup, r.forwarded, r.log) && Counts(r)
  {
    hide InTime;
    var g := GateAt(s, nowNs);
    ReadyHeldMembers(s.agenda, g);
    ForwardAllInTime(setup, s.(agenda := Held(s.agenda, g)), Ready(s.agenda, g), nowNs);
  }

  lemma ReceiveInTime(setup: Setup, s: LinkState, a: Arrival)
    requires setup.Valid() && InTime(setup, s.forwarded, s.log) && Counts(s)
    ensures var r := Receive(setup, s, a); InTime(setup, r.forwarded, r.log) && Counts(r)
  {
    hide InTime, OutcomeLog, OutcomeAt, StatisticsOf, Highest;
    var outcome := NextOutcome(setup, s, a.payload);
    LinkOrder.OutcomeShape(setup.config, |s.arrivals|, a.payload);
    OutcomeInTime(setup, s.forwarded, s.log, a.payload, outcome, a.receivedAtNs);
    LinkEvidence.OutcomeStatistics(setup, s.log, a.payload, outcome, a.receivedAtNs);
  }

  lemma StartInTime(setup: Setup)
    ensures var s := Start(setup); InTime(setup, s.forwarded, s.log) && Counts(s)
  {
    var log := Start(setup).log;
    assert log == [] + [log[0]];
    StatisticsAppend([], log[0]);
  }

  lemma {:induction false} RunInTime(setup: Setup, turns: seq<Turn>)
    requires setup.Valid()
    ensures var s := Run(setup, turns); InTime(setup, s.forwarded, s.log) && Counts(s)
  {
    hide InTime, Counts, SendReady, Receive, LimitReached;
    if turns == [] {
      StartInTime(setup);
    } else {
      var init, last := turns[..|turns| - 1], turns[|turns| - 1];
      var s := Run(setup, init);
      RunInTime(setup, init);
      LimitIsKept(setup, init);
      SendInTime(setup, s, last.nowNs);
      if !s.releasing && last.arrival.Some? {
        ReceiveInTime(setup, SendReady(setup, s, last.nowNs), last.arrival.value);
      }
    }
  }

  /** A queue entry is the delivery that the engine decided on, its delay and hold included. */
  lemma ItemIsDelivery(config: LinkConfig, arrivals: seq<Arrival>, x: ScheduledDatagram)
    requires config.Valid() && IsItem(config, arrivals, x)
    ensures var a := arrivals[x.packetIndex];
      var d := OutcomeAt(config, x.packetIndex, a.payload).deliveries[x.copyIndex];
      && d.copyIndex == x.copyIndex
      && x.dueAtNs == a.receivedAtNs + d.delayMs * 1_000_000
      && x.releaseAfterPacket == x.packetIndex + d.holdPackets
      && x.payload == d.payload && x.corruptedBit == d.corruptedBit
  {
    hide OutcomeAt;
    LinkOrder.OutcomeShape(config, x.packetIndex, arrivals[x.packetIndex].payload);
  }

  /**
   * The event forwards copy `copy` of packet `p` with its own attributes, once its delay has passed and,
   * `received` packets having come, its hold has ended.
   */
  ghost predicate ForwardsAsDecided(
    setup: Setup, arrivals: seq<Arrival>, e: LinkEvent, received: nat, p: nat, copy: nat)
    requires setup.Valid()
  {
    && p < |arrivals| && copy < |OutcomeAt(setup.config, p, arrivals[p].payload).deliveries|
    && var d := OutcomeAt(setup.config, p, arrivals[p].payload).deliveries[copy];
    && e.packetIndex == Some(p)
    && e.attributes == Fields(map[
         CopyField := Number(copy),
         BitIndex := if d.corruptedBit.Some? then Number(d.corruptedBit.value) else Null,
         PayloadBytes := Number(|d.payload|)])
    && setup.startNs + e.elapsedNs >= arrivals[p].receivedAtNs + d.delayMs * 1_000_000
    && (p + d.holdPackets < received || setup.maxPackets == Some(received))
  }

  lemma ItemInRange(config: LinkConfig, arrivals: seq<Arrival>, x: ScheduledDatagram)
    requires config.Valid() && IsItem(config, arrivals, x)
    ensures x.packetIndex < |arrivals|
    ensures x.copyIndex < |OutcomeAt(config, x.packetIndex, arrivals[x.packetIndex].payload).deliveries|
  {
  }

  lemma InTimeAsDecided(
    setup: Setup, arrivals: seq<Arrival>, output: seq<ScheduledDatagram>, log: seq<LinkEvent>, j: nat)
    returns (p: nat, copy: nat)
    requires setup.Valid() && j < |log| && EventInTime(setup, output, log, j)
    requires forall x :: x in output ==> IsItem(setup.config, arrivals, x)
    requires log[j].eventType == PacketForwarded
    ensures ForwardsAsDecided(setup, arrivals, log[j], StatisticsOf(log[..j]).packetsReceived, p, copy)
  {
    hide StatisticsOf, OutcomeAt, IsItem;
    var x := output[StatisticsOf(log[..j]).deliveriesForwarded];
    p, copy := x.packetIndex, x.copyIndex;
    ItemIsDelivery(setup.config, arrivals, x);
    assert IsItem(setup.config, arrivals, x);
    ItemInRange(setup.config, arrivals, x);
  }

  /**
   * Over every run, each forwarding event of the log is for a delivery that the engine decided on, with
   * its attributes, at a time when, by the log, its delay had passed, and after enough receptions, by the
   * log, to end its hold, or after the last reception of a bounded run.
   */
  lemma DelaysAndHoldsKept(setup: Setup, turns: seq<Turn>, j: nat)
    requires setup.Valid() && j < |Run(setup, turns).log|
    requires Run(setup, turns).log[j].eventType == PacketForwarded
    ensures var s := Run(setup, turns); var received := StatisticsOf(s.log[..j]).packetsReceived;
      exists p, copy :: ForwardsAsDecided(setup, s.arrivals, s.log[j], received, p, copy)
  {
    hide EventInTime, IsItem, StatisticsOf, ForwardsAsDecided, Run;
    var s := Run(setup, turns);
    RunInTime(setup, turns);
    ExactlyOnce(setup, turns);
    PendingIdentified(setup.config, s);
    assert EventInTime(setup, s.forwarded, s.log, j);
    var p, copy := InTimeAsDecided(setup, s.arrivals, s.forwarded, s.log, j);
  }

  /** The event says that copy `copy` of packet `p` goes after packet `highest`, and when its hold ends. */
  ghost predicate ReorderAsDecided(setup: Setup, arrivals: seq<Arrival>, e: LinkEvent, highest: int, p: nat, copy: nat)
    requires setup.Valid()
  {
    && p < |arrivals| && copy < |OutcomeAt(setup.config, p, arrivals[p].payload).deliveries|
    && p < highest
    && e.packetIndex == Some(p)
    && e.attributes == Fields(map[
         OvertakenBy := Number(highest),
         ReleaseAfter := Number(p + OutcomeAt(setup.config, p, arrivals[p].payload).deliveries[copy].holdPackets)])
  }

  lemma InTimeAt(setup: Setup, output: seq<ScheduledDatagram>, log: seq<LinkEvent>, j: nat)
    requires InTime(setup, output, log) && j < |log|
    ensures EventInTime(setup, output, log, j)
  {
  }

  /**
   * Over every run, each reordering event of the log names the highest packet sent so far, which is above
   * its own, and the packet that its own was held for.
   */
  lemma ReorderingsTold(setup: Setup, turns: seq<Turn>, j: nat)
    requires setup.Valid() && j < |Run(setup, turns).log|
    requires Run(setup, turns).log[j].eventType == PacketReordered
    ensures var s := Run(setup, turns); var k := StatisticsOf(s.log[..j]).deliveriesForwarded;
      && k < |s.forwarded|
      && (exists a :: 0 <= a < k && s.forwarded[a].packetIndex == Highest(s.forwarded[..k]))
      && (forall a :: 0 <= a < k ==> s.forwarded[a].packetIndex <= Highest(s.forwarded[..k]))
      && ReorderAsDecided(setup, s.arrivals, s.log[j], Highest(s.forwarded[..k]), s.forwarded[k].packetIndex,
           s.forwarded[k].copyIndex)
  {
    hide IsItem, StatisticsOf, OutcomeAt, Run, InTime;
    var s := Run(setup, turns);
    RunInTime(setup, turns);
    ExactlyOnce(setup, turns);
    PendingIdentified(setup.config, s);
    InTimeAt(setup, s.forwarded, s.log, j);
    var k := StatisticsOf(s.log[..j]).deliveriesForwarded;
    HighestIsLargest(s.forwarded[..k]);
    var x := s.forwarded[k];
    assert x in s.forwarded;
    ItemInRange(setup.config, s.arrivals, x);
    ItemIsDelivery(setup.config, s.arrivals, x);
  }

  // ---------- never late ----------

  lemma PendingStays(setup: Setup, s: LinkState, a: Arrival, x: ScheduledDatagram)
    requires setup.Valid() && x.packetIndex < |s.arrivals|
    ensures x in Receive(setup, s, a).agenda <==> x in s.agenda
  {
    var items := Scheduled(NextOutcome(setup, s, a.payload), a.receivedAtNs);
    InsertAllProperties(s.agenda, items);
    LinkOrder.OutcomeShape(setup.config, |s.arrivals|, a.payload);
    assert x in multiset(Receive(setup, s, a).agenda) <==> x in multiset(s.agenda) || x in multiset(items);
    assert x in multiset(items) <==> x in items;
  }

  lemma ReceiveForwardsNothing(setup: Setup, s: LinkState, a: Arrival)
    requires setup.Valid()
    ensures Receive(setup, s, a).forwarded == s.forwarded
  {
  }

  /**
   * A pending delivery leaves in the first pass that finds it due and its hold over, and not before:
   * pass `j` sends it exactly when the delay decided for it has passed at the reading of that pass and
   * its hold has ended.
   */
  lemma LeavesWhenOpen(setup: Setup, turns: seq<Turn>, j: nat, x: ScheduledDatagram)
    requires setup.Valid() && j < |turns| && x in Run(setup, turns[..j]).agenda
    ensures IsItem(setup.config, Run(setup, turns[..j]).arrivals, x)
    ensures var before, after := Run(setup, turns[..j]), Run(setup, turns[..j + 1]);
      var p, came := x.packetIndex, |before.arrivals|;
      var d := OutcomeAt(setup.config, p, before.arrivals[p].payload).deliveries[x.copyIndex];
      var opens := before.arrivals[p].receivedAtNs + d.delayMs * 1_000_000 <= turns[j].nowNs
        && (p + d.holdPackets < came || setup.maxPackets == Some(came));
      && (opens <==> x in after.forwarded && x !in before.forwarded)
      && (opens <==> x !in after.agenda)
  {
    hide Receive, IsItem, OutcomeAt;
    var before, now := Run(setup, turns[..j]), turns[j].nowNs;
    assert turns[..j + 1][..j] == turns[..j];
    ExactlyOnce(setup, turns[..j]);
    PendingIdentified(setup.config, before);
    SendReadyCore(setup, before, now);
    ReadyHeldMembers(before.agenda, GateAt(before, now));
    LimitIsKept(setup, turns[..j]);
    ItemInRange(setup.config, before.arrivals, x);
    ItemIsDelivery(setup.config, before.arrivals, x);
    if !before.releasing && turns[j].arrival.Some? {
      var a := turns[j].arrival.value;
      PendingStays(setup, SendReady(setup, before, now), a, x);
      ReceiveForwardsNothing(setup, SendReady(setup, before, now), a);
    }
  }
}
