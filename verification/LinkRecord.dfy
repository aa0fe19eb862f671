/** What the log says of the reception of each packet: one story for each, in order, complete and undisturbed. */
module LinkRecord {
  import opened Wrappers
  import opened Impairments
  import opened Schedule
  import opened LinkEvents
  import opened LinkRun
  import LinkOrder

  /** Type, time and attributes of one event. */
  type Told = (LinkEventType, int, Attributes)

  predicate IsReception(e: LinkEvent, p: nat) {
    e.packetIndex == Some(p) && e.eventType != PacketForwarded && e.eventType != PacketReordered
  }

  /** What a log tells of packet `p` before it is sent. */
  function ReceptionOf(log: seq<LinkEvent>, p: nat): seq<Told> {
    if log == [] then []
    else
      var last := log[|log| - 1];
      ReceptionOf(log[..|log| - 1], p)
      + (if IsReception(last, p) then [(last.eventType, last.elapsedNs, last.attributes)] else [])
  }

  function BitOrNull(bit: Option<nat>): Scalar {
    if bit.Some? then Number(bit.value) else Null
  }

  /** The scheduling event of one delivery. */
  function Scheduling(d: Delivery, elapsedNs: int): Told {
    (DeliveryScheduled, elapsedNs, Fields(map[
      CopyField := Number(d.copyIndex), BitIndex := BitOrNull(d.corruptedBit), DelayField := Number(d.delayMs),
      HoldField := Number(d.holdPackets), PayloadBytes := Number(|d.payload|)]))
  }

  /** The story of a packet of `size` bytes with this outcome, received at `elapsedNs`. */
  function Story(o: PacketOutcome, size: nat, elapsedNs: int): seq<Told> {
    var received := (PacketReceived, elapsedNs, Fields(map[PayloadBytes := Number(size)]));
    if o.deliveries == [] then [received, (PacketDropped, elapsedNs, Fields(map[PayloadBytes := Number(size)]))]
    else
      var d := o.deliveries[0];
      [received]
      + (if |o.deliveries| == 2 then [(PacketDuplicated, elapsedNs, Fields(map[CopyCount := Number(2)]))] else [])
      + (match d.corruptedBit
         case Some(b) => [(PacketCorrupted, elapsedNs, Fields(map[BitIndex := Number(b)]))]
         case None => [])
      + (if d.delayMs > 0 then [(PacketDelayed, elapsedNs, Fields(map[DelayField := Number(d.delayMs)]))] else [])
      + (if |o.deliveries| == 2 then [Scheduling(d, elapsedNs), Scheduling(o.deliveries[1], elapsedNs)]
         else [Scheduling(d, elapsedNs)])
  }

  lemma ReceptionAppend(log: seq<LinkEvent>, e: LinkEvent, p: nat)
    ensures ReceptionOf(log + [e], p) ==
      ReceptionOf(log, p) + (if IsReception(e, p) then [(e.eventType, e.elapsedNs, e.attributes)] else [])
  {
    assert (log + [e])[..|log|] == log;
  }

  /** An event of the emulator adds itself to the story of its packet. */
  lemma LoggedTells(
    setup: Setup, log: seq<LinkEvent>, t: LinkEventType, nowNs: int, packetIndex: nat, fields: map<Field, Scalar>,
    p: nat)
    ensures ReceptionOf(Logged(setup, log, t, nowNs, packetIndex, fields), p) ==
      ReceptionOf(log, p)
      + (if p == packetIndex && t != PacketForwarded && t != PacketReordered
         then [(t, nowNs - setup.startNs, Fields(fields))] else [])
  {
    ReceptionAppend(log, Stamped(setup, log, t, nowNs, Some(packetIndex), Fields(fields)), p);
  }

  lemma LoggedIfTells(
    setup: Setup, log: seq<LinkEvent>, condition: bool, t: LinkEventType, nowNs: int, packetIndex: nat,
    fields: map<Field, Scalar>, p: nat)
    requires t != PacketForwarded && t != PacketReordered
    ensures ReceptionOf(LoggedIf(setup, log, condition, t, nowNs, packetIndex, fields), p) ==
      ReceptionOf(log, p)
      + (if condition && p == packetIndex then [(t, nowNs - setup.startNs, Fields(fields))] else [])
  {
    hide ReceptionOf, Logged;
    LoggedTells(setup, log, t, nowNs, packetIndex, fields, p);
    assert ReceptionOf(log, p) + [] == ReceptionOf(log, p);
  }

  /** The engine's outcomes: dropped without deliveries, or one or two numbered copies. */
  predicate Shaped(o: PacketOutcome) {
    && (o.dropped <==> o.deliveries == []) && |o.deliveries| <= 2
    && forall k :: 0 <= k < |o.deliveries| ==> o.deliveries[k].copyIndex == k
  }

  lemma EffectsTell(setup: Setup, log: seq<LinkEvent>, o: PacketOutcome, nowNs: int, p: nat)
    requires Shaped(o) && !o.dropped
    ensures var at := nowNs - setup.startNs; var d := o.deliveries[0];
      ReceptionOf(EffectsLog(setup, log, o, nowNs), p) ==
      if p != o.packetIndex then ReceptionOf(log, p)
      else
        ReceptionOf(log, p)
        + (if |o.deliveries| == 2 then [(PacketDuplicated, at, Fields(map[CopyCount := Number(2)]))] else [])
        + (match d.corruptedBit
           case Some(b) => [(PacketCorrupted, at, Fields(map[BitIndex := Number(b)]))]
           case None => [])
        + (if d.delayMs > 0 then [(PacketDelayed, at, Fields(map[DelayField := Number(d.delayMs)]))] else [])
  {
    hide ReceptionOf, LoggedIf;
    var first := o.deliveries[0];
    var copies, bit := map[CopyCount := Number(|o.deliveries|)], map[BitIndex := BitScalar(first.corruptedBit)];
    var delay := map[DelayField := Number(first.delayMs)];
    var l1 := LoggedIf(setup, log, o.Duplicated(), PacketDuplicated, nowNs, o.packetIndex, copies);
    var l2 := LoggedIf(setup, l1, first.corruptedBit.Some?, PacketCorrupted, nowNs, o.packetIndex, bit);
    LoggedIfTells(setup, log, o.Duplicated(), PacketDuplicated, nowNs, o.packetIndex, copies, p);
    LoggedIfTells(setup, l1, first.corruptedBit.Some?, PacketCorrupted, nowNs, o.packetIndex, bit, p);
    LoggedIfTells(setup, l2, first.delayMs > 0, PacketDelayed, nowNs, o.packetIndex, delay, p);
  }

  lemma DeliveriesTell(setup: Setup, log: seq<LinkEvent>, o: PacketOutcome, nowNs: int, p: nat)
    requires Shaped(o) && !o.dropped
    ensures var at := nowNs - setup.startNs;
      ReceptionOf(DeliveriesLog(setup, log, o, |o.deliveries|, nowNs), p) ==
      ReceptionOf(log, p)
      + (if p != o.packetIndex then []
         else if |o.deliveries| == 2 then [Scheduling(o.deliveries[0], at), Scheduling(o.deliveries[1], at)]
         else [Scheduling(o.deliveries[0], at)])
  {
    hide ReceptionOf, Logged;
    LoggedTells(setup, log, DeliveryScheduled, nowNs, o.packetIndex, DeliveryFields(o.deliveries[0]), p);
    var l1 := DeliveriesLog(setup, log, o, 1, nowNs);
    assert DeliveriesLog(setup, log, o, 0, nowNs) == log;
    assert l1 == Logged(setup, log, DeliveryScheduled, nowNs, o.packetIndex, DeliveryFields(o.deliveries[0]));
    if |o.deliveries| == 2 {
      LoggedTells(setup, l1, DeliveryScheduled, nowNs, o.packetIndex, DeliveryFields(o.deliveries[1]), p);
    }
  }

  lemma OutcomeTells(setup: Setup, log: seq<LinkEvent>, raw: Bytes, o: PacketOutcome, nowNs: int, p: nat)
    requires Shaped(o)
    ensures ReceptionOf(OutcomeLog(setup, log, raw, o, nowNs), p) ==
      ReceptionOf(log, p) + (if p == o.packetIndex then Story(o, |raw|, nowNs - setup.startNs) else [])
  {
    hide ReceptionOf, Logged, EffectsLog, DeliveriesLog, Scheduling;
    var size := map[PayloadBytes := Number(|raw|)];
    var received := Logged(setup, log, PacketReceived, nowNs, o.packetIndex, size);
    LoggedTells(setup, log, PacketReceived, nowNs, o.packetIndex, size, p);
    if o.dropped {
      LoggedTells(setup, received, PacketDropped, nowNs, o.packetIndex, size, p);
    } else {
      EffectsTell(setup, received, o, nowNs, p);
      DeliveriesTell(setup, EffectsLog(setup, received, o, nowNs), o, nowNs, p);
    }
  }

  lemma {:induction false} ForwardingTellsNothing(
    setup: Setup, s: LinkState, items: seq<ScheduledDatagram>, nowNs: int, p: nat)
    ensures ReceptionOf(ForwardAll(setup, s, items, nowNs).log, p) == ReceptionOf(s.log, p)
  {
    hide ReceptionOf, Logged, ReorderFields, ForwardFields;
    if items == [] {
    } else {
      var item := items[|items| - 1];
      var m := ForwardAll(setup, s, items[..|items| - 1], nowNs);
      var m1 := NoteOvertaken(setup, m, item, nowNs);
      ForwardingTellsNothing(setup, s, items[..|items| - 1], nowNs, p);
      LoggedTells(setup, m.log, PacketReordered, nowNs, item.packetIndex, ReorderFields(m.highestForwarded, item), p);
      LoggedTells(setup, m1.log, PacketForwarded, nowNs, item.packetIndex, ForwardFields(item), p);
    }
  }

  lemma OutcomeIsShaped(config: LinkConfig, n: nat, payload: Bytes)
    requires config.Valid()
    ensures Shaped(OutcomeAt(config, n, payload)) && OutcomeAt(config, n, payload).packetIndex == n
  {
    LinkOrder.OutcomeShape(config, n, payload);
  }

  lemma StartTellsNothing(setup: Setup, p: nat)
    ensures ReceptionOf(Start(setup).log, p) == []
  {
    ReceptionAppend([], Start(setup).log[0], p);
    assert [] + [Start(setup).log[0]] == Start(setup).log;
  }

  lemma ReceiveTells(setup: Setup, s: LinkState, a: Arrival, p: nat)
    requires setup.Valid()
    ensures ReceptionOf(Receive(setup, s, a).log, p) ==
      ReceptionOf(s.log, p)
      + (if p == |s.arrivals|
         then Story(OutcomeAt(setup.config, p, a.payload), |a.payload|, a.receivedAtNs - setup.startNs) else [])
  {
    hide ReceptionOf, OutcomeAt, OutcomeLog, Story;
    OutcomeIsShaped(setup.config, |s.arrivals|, a.payload);
    OutcomeTells(setup, s.log, a.payload, NextOutcome(setup, s, a.payload), a.receivedAtNs, p);
  }

  /**
   * Over every run the log tells of each packet received exactly what happened to it, in order and with
   * every attribute, and nothing of any other packet.
   */
  lemma {:induction false} LogTellsReception(setup: Setup, turns: seq<Turn>, p: nat)
    requires setup.Valid()
    ensures var s := Run(setup, turns);
      ReceptionOf(s.log, p) ==
      if p < |s.arrivals| then
        var a := s.arrivals[p];
        Story(OutcomeAt(setup.config, p, a.payload), |a.payload|, a.receivedAtNs - setup.startNs)
      else []
  {
    hide ReceptionOf, OutcomeAt, OutcomeLog, Story, ForwardAll, Ready, Held, InsertAll;
    if turns == [] {
      StartTellsNothing(setup, p);
    } else {
      var init, last := turns[..|turns| - 1], turns[|turns| - 1];
      var s := Run(setup, init);
      var g := GateAt(s, last.nowNs);
      LogTellsReception(setup, init, p);
      ForwardingTellsNothing(setup, s.(agenda := Held(s.agenda, g)), Ready(s.agenda, g), last.nowNs, p);
      SendReadyCore(setup, s, last.nowNs);
      if !s.releasing && last.arrival.Some? {
        ReceiveTells(setup, SendReady(setup, s, last.nowNs), last.arrival.value, p);
      }
    }
  }
}
