/**
 * The link emulator's loop as a fold over turns. One turn is one pass of the loop: send what is
 * ready at the clock reading, then (unless the run is draining) receive at most one datagram.
 */
module LinkRun {
  import opened Wrappers
  import opened Impairments
  import opened Schedule
  import opened LinkEvents
  import opened Texts

  datatype Arrival = Arrival(payload: Bytes, receivedAtNs: int)
  datatype Turn = Turn(nowNs: int, arrival: Option<Arrival>)

  datatype Setup = Setup(
    config: LinkConfig, sessionId: string, startNs: int, metadata: LinkRunMetadata, maxPackets: Option<int>)
  {
    ghost predicate Valid() {
      && config.Valid()
      && NonBlank(sessionId)
      && 0 <= startNs
      && metadata.Valid()
      && (maxPackets.Some? ==> 0 < maxPackets.value)
    }
  }

  /**
   * `arrivals` is everything received so far, `agenda` the pending deliveries in key order,
   * `forwarded` everything sent so far, `log` every event the sink accepted.
   */
  datatype LinkState = LinkState(
    arrivals: seq<Arrival>,
    agenda: seq<ScheduledDatagram>,
    releasing: bool,
    forwarded: seq<ScheduledDatagram>,
    highestForwarded: int,
    reordered: set<nat>,
    log: seq<LinkEvent>)

  function BitScalar(bit: Option<nat>): Scalar {
    match bit case None => Null case Some(b) => Number(b)
  }

  function Stamped(
    setup: Setup, log: seq<LinkEvent>, t: LinkEventType, nowNs: int, packetIndex: Option<int>, attributes: Attributes)
    : LinkEvent
  {
    LinkEvent(setup.sessionId, |log|, nowNs - setup.startNs, t, packetIndex, attributes, SCHEMA_VERSION)
  }

  function Logged(
    setup: Setup, log: seq<LinkEvent>, t: LinkEventType, nowNs: int, packetIndex: nat, fields: map<Field, Scalar>)
    : seq<LinkEvent>
  {
    log + [Stamped(setup, log, t, nowNs, Some(packetIndex), Fields(fields))]
  }

  function LoggedIf(
    setup: Setup, log: seq<LinkEvent>, condition: bool, t: LinkEventType, nowNs: int, packetIndex: nat,
    fields: map<Field, Scalar>)
    : seq<LinkEvent>
  {
    if condition then Logged(setup, log, t, nowNs, packetIndex, fields) else log
  }

  function Start(setup: Setup): LinkState {
    LinkState([], [], false, [], -1, {},
      [Stamped(setup, [], RunMetadata, setup.startNs, None, Metadata(setup.metadata))])
  }

  // ---------- sending ----------

  function ReorderFields(highestForwarded: int, item: ScheduledDatagram): map<Field, Scalar> {
    map[OvertakenBy := Number(highestForwarded), ReleaseAfter := Number(item.releaseAfterPacket)]
  }

  function ForwardFields(item: ScheduledDatagram): map<Field, Scalar> {
    map[
      CopyField := Number(item.copyIndex),
      BitIndex := BitScalar(item.corruptedBit),
      PayloadBytes := Number(|item.payload|)]
  }

  predicate IsOvertaken(s: LinkState, item: ScheduledDatagram) {
    item.packetIndex < s.highestForwarded && item.packetIndex !in s.reordered
  }

  function NoteOvertaken(setup: Setup, s: LinkState, item: ScheduledDatagram, nowNs: int): LinkState {
    if IsOvertaken(s, item) then
      s.(reordered := s.reordered + {item.packetIndex},
         log := Logged(setup, s.log, PacketReordered, nowNs, item.packetIndex, ReorderFields(s.highestForwarded, item)))
    else s
  }

  function Forward(setup: Setup, s: LinkState, item: ScheduledDatagram, nowNs: int): LinkState {
    var s1 := NoteOvertaken(setup, s, item, nowNs);
    s1.(highestForwarded := Max(s.highestForwarded, item.packetIndex),
        forwarded := s.forwarded + [item],
        log := Logged(setup, s1.log, PacketForwarded, nowNs, item.packetIndex, ForwardFields(item)))
  }

  function ForwardAll(setup: Setup, s: LinkState, items: seq<ScheduledDatagram>, nowNs: int): LinkState {
    if items == [] then s
    else Forward(setup, ForwardAll(setup, s, items[..|items| - 1], nowNs), items[|items| - 1], nowNs)
  }

  function GateAt(s: LinkState, nowNs: int): Gate {
    Gate(nowNs, |s.arrivals| - 1, s.releasing)
  }

  function SendReady(setup: Setup, s: LinkState, nowNs: int): LinkState {
    var g := GateAt(s, nowNs);
    ForwardAll(setup, s.(agenda := Held(s.agenda, g)), Ready(s.agenda, g), nowNs)
  }

  // ---------- receiving ----------

  function DeliveryFields(d: Delivery): map<Field, Scalar> {
    map[
      CopyField := Number(d.copyIndex),
      BitIndex := BitScalar(d.corruptedBit),
      DelayField := Number(d.delayMs),
      HoldField := Number(d.holdPackets),
      PayloadBytes := Number(|d.payload|)]
  }

  function DeliveriesLog(setup: Setup, log: seq<LinkEvent>, outcome: PacketOutcome, count: nat, nowNs: int)
    : seq<LinkEvent>
    requires count <= |outcome.deliveries|
  {
    if count == 0 then log
    else Logged(setup, DeliveriesLog(setup, log, outcome, count - 1, nowNs), DeliveryScheduled, nowNs,
      outcome.packetIndex, DeliveryFields(outcome.deliveries[count - 1]))
  }

  /** The events between reception and scheduling of a packet that is not dropped. */
  function EffectsLog(setup: Setup, log: seq<LinkEvent>, outcome: PacketOutcome, nowNs: int): seq<LinkEvent>
    requires outcome.deliveries != []
  {
    var first := outcome.deliveries[0];
    var l1 := LoggedIf(setup, log, outcome.Duplicated(), PacketDuplicated, nowNs, outcome.packetIndex,
      map[CopyCount := Number(|outcome.deliveries|)]);
    var l2 := LoggedIf(setup, l1, first.corruptedBit.Some?, PacketCorrupted, nowNs, outcome.packetIndex,
      map[BitIndex := BitScalar(first.corruptedBit)]);
    LoggedIf(setup, l2, first.delayMs > 0, PacketDelayed, nowNs, outcome.packetIndex,
      map[DelayField := Number(first.delayMs)])
  }

  function OutcomeLog(setup: Setup, log: seq<LinkEvent>, raw: Bytes, outcome: PacketOutcome, nowNs: int)
    : seq<LinkEvent>
    requires outcome.dropped || outcome.deliveries != []
  {
    var size := map[PayloadBytes := Number(|raw|)];
    var received := Logged(setup, log, PacketReceived, nowNs, outcome.packetIndex, size);
    if outcome.dropped then Logged(setup, received, PacketDropped, nowNs, outcome.packetIndex, size)
    else DeliveriesLog(setup, EffectsLog(setup, received, outcome, nowNs), outcome, |outcome.deliveries|, nowNs)
  }

  function InsertAll(agenda: seq<ScheduledDatagram>, items: seq<ScheduledDatagram>): seq<ScheduledDatagram> {
    if items == [] then agenda else Insert(InsertAll(agenda, items[..|items| - 1]), items[|items| - 1])
  }

  function NextOutcome(setup: Setup, s: LinkState, raw: Bytes): PacketOutcome
    requires setup.Valid()
  {
    OutcomeAt(setup.config, |s.arrivals|, raw)
  }

  /** Holds are released once the last packet of a bounded run has been enqueued. */
  predicate LimitReached(setup: Setup, received: nat) {
    setup.maxPackets.Some? && received >= setup.maxPackets.value
  }

  function Receive(setup: Setup, s: LinkState, a: Arrival): LinkState
    requires setup.Valid()
  {
    var outcome := NextOutcome(setup, s, a.payload);
    s.(arrivals := s.arrivals + [a],
       agenda := InsertAll(s.agenda, Scheduled(outcome, a.receivedAtNs)),
       releasing := s.releasing || LimitReached(setup, |s.arrivals| + 1),
       log := OutcomeLog(setup, s.log, a.payload, outcome, a.receivedAtNs))
  }

  // ---------- runs ----------

  function Step(setup: Setup, s: LinkState, turn: Turn): LinkState
    requires setup.Valid()
  {
    var sent := SendReady(setup, s, turn.nowNs);
    if s.releasing || turn.arrival.None? then sent else Receive(setup, sent, turn.arrival.value)
  }

  function Run(setup: Setup, turns: seq<Turn>): LinkState
    requires setup.Valid()
  {
    if turns == [] then Start(setup) else Step(setup, Run(setup, turns[..|turns| - 1]), turns[|turns| - 1])
  }

  function TurnEnd(turn: Turn): int {
    match turn.arrival case None => turn.nowNs case Some(a) => a.receivedAtNs
  }

  function LastReading(setup: Setup, turns: seq<Turn>): int {
    if turns == [] then setup.startNs else TurnEnd(turns[|turns| - 1])
  }

  /** All clock readings of the run, in program order, never go backwards. */
  ghost predicate Clocked(setup: Setup, turns: seq<Turn>) {
    turns == [] ||
    var init, last := turns[..|turns| - 1], turns[|turns| - 1];
    Clocked(setup, init) && LastReading(setup, init) <= last.nowNs <= TurnEnd(last)
  }

  /** The log after the closing summary. */
  function Finished(setup: Setup, s: LinkState, nowNs: int): seq<LinkEvent> {
    s.log + [Stamped(setup, s.log, RunSummary, nowNs, None, Fields(ToFields(StatisticsOf(s.log))))]
  }

  // ---------- what sending and receiving do to everything but the log ----------

  lemma {:induction false} ForwardAllKeeps(setup: Setup, s: LinkState, items: seq<ScheduledDatagram>, nowNs: int)
    ensures var r := ForwardAll(setup, s, items, nowNs);
      && r.forwarded == s.forwarded + items
      && r.agenda == s.agenda && r.arrivals == s.arrivals && r.releasing == s.releasing
  {
    if items == [] {
    } else {
      ForwardAllKeeps(setup, s, items[..|items| - 1], nowNs);
      assert items == items[..|items| - 1] + [items[|items| - 1]];
    }
  }

  lemma SendReadyCore(setup: Setup, s: LinkState, nowNs: int)
    ensures var r := SendReady(setup, s, nowNs); var g := GateAt(s, nowNs);
      && r.forwarded == s.forwarded + Ready(s.agenda, g)
      && r.agenda == Held(s.agenda, g)
      && r.arrivals == s.arrivals && r.releasing == s.releasing
  {
    var g := GateAt(s, nowNs);
    ForwardAllKeeps(setup, s.(agenda := Held(s.agenda, g)), Ready(s.agenda, g), nowNs);
  }

  lemma {:induction false} InsertAllProperties(agenda: seq<ScheduledDatagram>, items: seq<ScheduledDatagram>)
    ensures multiset(InsertAll(agenda, items)) == multiset(agenda) + multiset(items)
    ensures Sorted(agenda) ==> Sorted(InsertAll(agenda, items))
  {
    if items == [] {
    } else {
      InsertAllProperties(agenda, items[..|items| - 1]);
      assert items == items[..|items| - 1] + [items[|items| - 1]];
    }
  }

  /** A bounded run takes in no more than its limit, and releases holds exactly when it has. */
  lemma {:induction false} LimitIsKept(setup: Setup, turns: seq<Turn>)
    requires setup.Valid()
    ensures var s := Run(setup, turns);
      && (setup.maxPackets.Some? ==> |s.arrivals| <= setup.maxPackets.value)
      && (s.releasing <==> setup.maxPackets == Some(|s.arrivals|))
  {
    hide SendReady, OutcomeAt, OutcomeLog, InsertAll;
    if turns == [] {
    } else {
      LimitIsKept(setup, turns[..|turns| - 1]);
      SendReadyCore(setup, Run(setup, turns[..|turns| - 1]), turns[|turns| - 1].nowNs);
    }
  }

  // ---------- exactly-once delivery ----------

  /** Every delivery the engine produced for the packets received so far. */
  function Produced(config: LinkConfig, arrivals: seq<Arrival>): seq<ScheduledDatagram>
    requires config.Valid()
  {
    if arrivals == [] then []
    else
      var init, last := arrivals[..|arrivals| - 1], arrivals[|arrivals| - 1];
      Produced(config, init) + Scheduled(OutcomeAt(config, |init|, last.payload), last.receivedAtNs)
  }

  lemma ProducedAppend(config: LinkConfig, arrivals: seq<Arrival>, a: Arrival)
    requires config.Valid()
    ensures Produced(config, arrivals + [a]) ==
      Produced(config, arrivals) + Scheduled(OutcomeAt(config, |arrivals|, a.payload), a.receivedAtNs)
  {
    assert (arrivals + [a])[..|arrivals|] == arrivals;
  }

  /** The two places a produced delivery can be. */
  ghost predicate Conserved(config: LinkConfig, s: LinkState)
    requires config.Valid()
  {
    && Sorted(s.agenda)
    && multiset(Produced(config, s.arrivals)) == multiset(s.forwarded) + multiset(s.agenda)
  }

  lemma SendConserves(setup: Setup, s: LinkState, nowNs: int)
    requires setup.Valid() && Conserved(setup.config, s)
    ensures Conserved(setup.config, SendReady(setup, s, nowNs))
  {
    SendReadyCore(setup, s, nowNs);
    ReadyHeldPartition(s.agenda, GateAt(s, nowNs));
    ReadyHeldSorted(s.agenda, GateAt(s, nowNs));
  }

  lemma ReceiveConserves(setup: Setup, s: LinkState, a: Arrival)
    requires setup.Valid() && Conserved(setup.config, s)
    ensures Conserved(setup.config, Receive(setup, s, a))
  {
    ProducedAppend(setup.config, s.arrivals, a);
    InsertAllProperties(s.agenda, Scheduled(NextOutcome(setup, s, a.payload), a.receivedAtNs));
  }

  /**
   * Exactly once: at every loop head, what the engine produced is, as a multiset with payloads,
   * what has been forwarded plus what is pending.
   */
  lemma {:induction false} ExactlyOnce(setup: Setup, turns: seq<Turn>)
    requires setup.Valid()
    ensures Conserved(setup.config, Run(setup, turns))
  {
    if turns == [] {
    } else {
      var init, last := turns[..|turns| - 1], turns[|turns| - 1];
      ExactlyOnce(setup, init);
      var s := Run(setup, init);
      SendConserves(setup, s, last.nowNs);
      if !s.releasing && last.arrival.Some? {
        ReceiveConserves(setup, SendReady(setup, s, last.nowNs), last.arrival.value);
      }
    }
  }

  /** The queue entry of copy `c` of packet `p`. */
  function ItemOf(config: LinkConfig, arrivals: seq<Arrival>, p: nat, c: nat): ScheduledDatagram
    requires config.Valid() && p < |arrivals|
    requires c < |OutcomeAt(config, p, arrivals[p].payload).deliveries|
  {
    ScheduledFor(OutcomeAt(config, p, arrivals[p].payload), c, arrivals[p].receivedAtNs)
  }

  ghost predicate IsItem(config: LinkConfig, arrivals: seq<Arrival>, x: ScheduledDatagram)
    requires config.Valid()
  {
    && x.packetIndex < |arrivals|
    && x.copyIndex < |OutcomeAt(config, x.packetIndex, arrivals[x.packetIndex].payload).deliveries|
    && x == ItemOf(config, arrivals, x.packetIndex, x.copyIndex)
  }

  lemma FreshItems(config: LinkConfig, arrivals: seq<Arrival>, x: ScheduledDatagram)
    requires config.Valid() && arrivals != []
    ensures var p := |arrivals| - 1; var last := arrivals[p];
      x in Scheduled(OutcomeAt(config, p, last.payload), last.receivedAtNs) <==>
      x.packetIndex == p && IsItem(config, arrivals, x)
  {
    var p := |arrivals| - 1;
    var items := Scheduled(OutcomeAt(config, p, arrivals[p].payload), arrivals[p].receivedAtNs);
    if x.packetIndex == p && IsItem(config, arrivals, x) {
      assert items[x.copyIndex] == x;
    }
  }

  lemma OlderItem(config: LinkConfig, init: seq<Arrival>, last: Arrival, x: ScheduledDatagram)
    requires config.Valid()
    ensures IsItem(config, init, x) <==> x.packetIndex < |init| && IsItem(config, init + [last], x)
  {
  }

  lemma {:induction false} ScheduledOnce(outcome: PacketOutcome, at: int, x: ScheduledDatagram, n: nat)
    requires n <= |outcome.deliveries|
    requires forall k :: 0 <= k < |outcome.deliveries| ==> outcome.deliveries[k].copyIndex == k
    ensures multiset(Scheduled(outcome, at)[..n])[x] <= 1
    ensures x in Scheduled(outcome, at)[..n] ==> x.copyIndex < n && x.packetIndex == outcome.packetIndex
  {
    if n == 0 {
    } else {
      ScheduledOnce(outcome, at, x, n - 1);
      var items := Scheduled(outcome, at);
      assert items[..n] == items[..n - 1] + [items[n - 1]];
      assert x in multiset(items[..n - 1]) ==> x in items[..n - 1];
    }
  }

  lemma ProducedStep(config: LinkConfig, init: seq<Arrival>, last: Arrival, x: ScheduledDatagram)
    requires config.Valid()
    requires x in Produced(config, init) <==> IsItem(config, init, x)
    requires multiset(Produced(config, init))[x] <= 1
    ensures x in Produced(config, init + [last]) <==> IsItem(config, init + [last], x)
    ensures multiset(Produced(config, init + [last]))[x] <= 1
  {
    hide Scheduled;
    var outcome := OutcomeAt(config, |init|, last.payload);
    var latest := Scheduled(outcome, last.receivedAtNs);
    ProducedAppend(config, init, last);
    assert (init + [last])[|init|] == last;
    FreshItems(config, init + [last], x);
    OlderItem(config, init, last, x);
    ScheduledOnce(outcome, last.receivedAtNs, x, |outcome.deliveries|);
    assert latest[..|outcome.deliveries|] == latest;
    assert x in multiset(latest) <==> x in latest;
    assert x in multiset(Produced(config, init)) <==> x in Produced(config, init);
  }

  /** Packet and copy determine a produced delivery, and each is produced once. */
  lemma {:induction false} ProducedItems(config: LinkConfig, arrivals: seq<Arrival>)
    requires config.Valid()
    ensures forall x :: x in Produced(config, arrivals) <==> IsItem(config, arrivals, x)
    ensures forall x :: multiset(Produced(config, arrivals))[x] <= 1
  {
    if arrivals == [] {
    } else {
      var init, last := arrivals[..|arrivals| - 1], arrivals[|arrivals| - 1];
      ProducedItems(config, init);
      assert arrivals == init + [last];
      forall x
        ensures x in Produced(config, arrivals) <==> IsItem(config, arrivals, x)
        ensures multiset(Produced(config, arrivals))[x] <= 1
      {
        ProducedStep(config, init, last, x);
      }
    }
  }

  /** What conservation means for single deliveries: nothing is invented, doubled or confused. */
  lemma PendingIdentified(config: LinkConfig, s: LinkState)
    requires config.Valid() && Conserved(config, s)
    ensures Identified(multiset(s.agenda))
    ensures forall x :: x in s.agenda || x in s.forwarded <==> IsItem(config, s.arrivals, x)
    ensures forall x :: !(x in s.agenda && x in s.forwarded)
    ensures forall x :: multiset(s.forwarded)[x] <= 1
  {
    ProducedItems(config, s.arrivals);
    var all := multiset(Produced(config, s.arrivals));
    forall x: ScheduledDatagram
      ensures x in s.agenda || x in s.forwarded <==> IsItem(config, s.arrivals, x)
      ensures !(x in s.agenda && x in s.forwarded)
      ensures multiset(s.forwarded)[x] <= 1
      ensures x in multiset(s.agenda) ==> multiset(s.agenda)[x] == 1
    {
      assert all[x] == multiset(s.forwarded)[x] + multiset(s.agenda)[x];
      assert x in all <==> x in Produced(config, s.arrivals);
      assert x in multiset(s.agenda) <==> x in s.agenda;
      assert x in multiset(s.forwarded) <==> x in s.forwarded;
    }
  }
}
