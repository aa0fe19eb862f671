/** The event log tells what was sent: its forwarding events are the output, one for one and in order. */
module LinkTrace {
  import opened Wrappers
  import opened Impairments
  import opened Schedule
  import opened LinkEvents
  import opened LinkRun
  import LinkOrder

  /** Packet number and attributes of the log's events of one type, in order. */
  function TraceOf(log: seq<LinkEvent>, t: LinkEventType): seq<(Option<int>, Attributes)> {
    if log == [] then []
    else
      var last := log[|log| - 1];
      TraceOf(log[..|log| - 1], t) + (if last.eventType == t then [(last.packetIndex, last.attributes)] else [])
  }

  /** What the forwarding events of `items` hold. */
  function Forwarding(items: seq<ScheduledDatagram>): (r: seq<(Option<int>, Attributes)>)
    ensures |r| == |items|
    ensures forall k :: 0 <= k < |r| ==> r[k] == (Some(items[k].packetIndex as int), Fields(map[
      CopyField := Number(items[k].copyIndex),
      BitIndex := if items[k].corruptedBit.Some? then Number(items[k].corruptedBit.value) else Null,
      PayloadBytes := Number(|items[k].payload|)]))
  {
    seq(|items|, k requires 0 <= k < |items| => (Some(items[k].packetIndex as int), Fields(ForwardFields(items[k]))))
  }

  lemma TraceAppend(log: seq<LinkEvent>, e: LinkEvent, t: LinkEventType)
    ensures TraceOf(log + [e], t) ==
      TraceOf(log, t) + (if e.eventType == t then [(e.packetIndex, e.attributes)] else [])
  {
    assert (log + [e])[..|log|] == log;
  }

  lemma ForwardTraced(setup: Setup, s: LinkState, item: ScheduledDatagram, nowNs: int)
    ensures TraceOf(Forward(setup, s, item, nowNs).log, PacketForwarded) ==
      TraceOf(s.log, PacketForwarded) + [(Some(item.packetIndex as int), Fields(ForwardFields(item)))]
  {
    hide ForwardFields, ReorderFields, TraceOf;
    var s1 := NoteOvertaken(setup, s, item, nowNs);
    var e := Stamped(setup, s1.log, PacketForwarded, nowNs, Some(item.packetIndex), Fields(ForwardFields(item)));
    TraceAppend(s1.log, e, PacketForwarded);
    if IsOvertaken(s, item) {
      var r := Stamped(setup, s.log, PacketReordered, nowNs, Some(item.packetIndex),
        Fields(ReorderFields(s.highestForwarded, item)));
      TraceAppend(s.log, r, PacketForwarded);
      assert TraceOf(s1.log, PacketForwarded) == TraceOf(s.log, PacketForwarded);
    }
  }

  lemma {:induction false} ForwardAllTraced(setup: Setup, s: LinkState, items: seq<ScheduledDatagram>, nowNs: int)
    ensures TraceOf(ForwardAll(setup, s, items, nowNs).log, PacketForwarded) ==
      TraceOf(s.log, PacketForwarded) + Forwarding(items)
  {
    hide Forward, ForwardFields, TraceOf;
    if items == [] {
    } else {
      var init, item := items[..|items| - 1], items[|items| - 1];
      ForwardAllTraced(setup, s, init, nowNs);
      ForwardTraced(setup, ForwardAll(setup, s, init, nowNs), item, nowNs);
      assert Forwarding(items) == Forwarding(init) + [(Some(item.packetIndex as int), Fields(ForwardFields(item)))];
    }
  }

  lemma LoggedUntraced(
    setup: Setup, log: seq<LinkEvent>, t: LinkEventType, nowNs: int, packetIndex: nat, fields: map<Field, Scalar>)
    requires t != PacketForwarded
    ensures TraceOf(Logged(setup, log, t, nowNs, packetIndex, fields), PacketForwarded) == TraceOf(log, PacketForwarded)
  {
    TraceAppend(log, Stamped(setup, log, t, nowNs, Some(packetIndex), Fields(fields)), PacketForwarded);
  }

  lemma {:induction false} DeliveriesUntraced(
    setup: Setup, log: seq<LinkEvent>, outcome: PacketOutcome, count: nat, nowNs: int)
    requires count <= |outcome.deliveries|
    ensures TraceOf(DeliveriesLog(setup, log, outcome, count, nowNs), PacketForwarded) == TraceOf(log, PacketForwarded)
  {
    hide DeliveryFields, TraceOf, Logged;
    if count == 0 {
    } else {
      DeliveriesUntraced(setup, log, outcome, count - 1, nowNs);
      LoggedUntraced(setup, DeliveriesLog(setup, log, outcome, count - 1, nowNs), DeliveryScheduled, nowNs,
        outcome.packetIndex, DeliveryFields(outcome.deliveries[count - 1]));
    }
  }

  lemma EffectsUntraced(setup: Setup, log: seq<LinkEvent>, outcome: PacketOutcome, nowNs: int)
    requires outcome.deliveries != []
    ensures TraceOf(EffectsLog(setup, log, outcome, nowNs), PacketForwarded) == TraceOf(log, PacketForwarded)
  {
    hide TraceOf, Logged;
    var first := outcome.deliveries[0];
    var copies, bit := map[CopyCount := Number(|outcome.deliveries|)], map[BitIndex := BitScalar(first.corruptedBit)];
    var l1 := LoggedIf(setup, log, outcome.Duplicated(), PacketDuplicated, nowNs, outcome.packetIndex, copies);
    var l2 := LoggedIf(setup, l1, first.corruptedBit.Some?, PacketCorrupted, nowNs, outcome.packetIndex, bit);
    LoggedUntraced(setup, log, PacketDuplicated, nowNs, outcome.packetIndex, copies);
    LoggedUntraced(setup, l1, PacketCorrupted, nowNs, outcome.packetIndex, bit);
    LoggedUntraced(setup, l2, PacketDelayed, nowNs, outcome.packetIndex, map[DelayField := Number(first.delayMs)]);
  }

  lemma OutcomeUntraced(setup: Setup, log: seq<LinkEvent>, raw: Bytes, outcome: PacketOutcome, nowNs: int)
    requires outcome.dropped || outcome.deliveries != []
    ensures TraceOf(OutcomeLog(setup, log, raw, outcome, nowNs), PacketForwarded) == TraceOf(log, PacketForwarded)
  {
    hide TraceOf, Logged, EffectsLog, DeliveriesLog;
    var size := map[PayloadBytes := Number(|raw|)];
    var received := Logged(setup, log, PacketReceived, nowNs, outcome.packetIndex, size);
    LoggedUntraced(setup, log, PacketReceived, nowNs, outcome.packetIndex, size);
    if outcome.dropped {
      LoggedUntraced(setup, received, PacketDropped, nowNs, outcome.packetIndex, size);
    } else {
      EffectsUntraced(setup, received, outcome, nowNs);
      DeliveriesUntraced(setup, EffectsLog(setup, received, outcome, nowNs), outcome, |outcome.deliveries|, nowNs);
    }
  }

  /** The log and the output of a state agree. */
  ghost predicate Traced(s: LinkState) {
    TraceOf(s.log, PacketForwarded) == Forwarding(s.forwarded)
  }

  lemma SendTraced(setup: Setup, s: LinkState, nowNs: int)
    requires Traced(s)
    ensures Traced(SendReady(setup, s, nowNs))
  {
    hide TraceOf;
    var g := GateAt(s, nowNs);
    SendReadyCore(setup, s, nowNs);
    ForwardAllTraced(setup, s.(agenda := Held(s.agenda, g)), Ready(s.agenda, g), nowNs);
    assert Forwarding(s.forwarded + Ready(s.agenda, g)) == Forwarding(s.forwarded) + Forwarding(Ready(s.agenda, g));
  }

  lemma ReceiveTraced(setup: Setup, s: LinkState, a: Arrival)
    requires setup.Valid() && Traced(s)
    ensures Traced(Receive(setup, s, a))
  {
    hide TraceOf, OutcomeLog, OutcomeAt;
    LinkOrder.OutcomeShape(setup.config, |s.arrivals|, a.payload);
    OutcomeUntraced(setup, s.log, a.payload, NextOutcome(setup, s, a.payload), a.receivedAtNs);
  }

  /**
   * At every loop head the log's forwarding events are the datagrams sent so far, one for one and in
   * order, each with its packet, copy, corrupted bit and size.
   */
  lemma {:induction false} LogTellsOutput(setup: Setup, turns: seq<Turn>)
    requires setup.Valid()
    ensures TraceOf(Run(setup, turns).log, PacketForwarded) == Forwarding(Run(setup, turns).forwarded)
  {
    hide SendReady, Receive;
    if turns == [] {
      TraceAppend([], Start(setup).log[0], PacketForwarded);
      assert [] + [Start(setup).log[0]] == Start(setup).log;
    } else {
      var init, last := turns[..|turns| - 1], turns[|turns| - 1];
      LogTellsOutput(setup, init);
      var s := Run(setup, init);
      SendReadyCore(setup, s, last.nowNs);
      SendTraced(setup, s, last.nowNs);
      if !s.releasing && last.arrival.Some? {
        ReceiveTraced(setup, SendReady(setup, s, last.nowNs), last.arrival.value);
      }
    }
  }
}
