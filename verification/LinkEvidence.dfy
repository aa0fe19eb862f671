/** What the event log of a run proves: reordering evidence and self-consistent counters. */
module LinkEvidence {
  import opened Wrappers
  import opened Impairments
  import opened Schedule
  import opened LinkEvents
  import opened LinkRun
  import opened LinkOrder

  // ---------- reordering evidence ----------

  /** Position `b` was forwarded after a delivery of a higher-numbered packet. */
  ghost predicate CameLate(f: seq<ScheduledDatagram>, b: nat)
    requires b < |f|
  {
    exists a :: 0 <= a < b && f[a].packetIndex > f[b].packetIndex
  }

  /** The packets with some delivery forwarded after a higher-numbered packet. */
  ghost function LatePackets(f: seq<ScheduledDatagram>): set<nat> {
    set b | 0 <= b < |f| && CameLate(f, b) :: f[b].packetIndex
  }

  predicate IsReorderOf(e: LinkEvent, p: nat) {
    e.eventType == PacketReordered && e.packetIndex == Some(p)
  }

  /** How many reorder events name packet `p`. */
  function ReorderCount(log: seq<LinkEvent>, p: nat): nat {
    if log == [] then 0
    else ReorderCount(log[..|log| - 1], p) + (if IsReorderOf(log[|log| - 1], p) then 1 else 0)
  }

  ghost predicate EvidenceKept(s: LinkState) {
    && (forall a :: 0 <= a < |s.forwarded| ==> s.forwarded[a].packetIndex <= s.highestForwarded)
    && (s.forwarded == [] ==> s.highestForwarded == -1)
    && (s.forwarded != [] ==> exists a :: 0 <= a < |s.forwarded| && s.forwarded[a].packetIndex == s.highestForwarded)
    && s.reordered == LatePackets(s.forwarded)
    && (forall p :: ReorderCount(s.log, p) == if p in s.reordered then 1 else 0)
    && StatisticsOf(s.log).packetsReordered == |s.reordered|
  }

  lemma ReorderAppend(log: seq<LinkEvent>, e: LinkEvent, p: nat)
    ensures ReorderCount(log + [e], p) == ReorderCount(log, p) + (if IsReorderOf(e, p) then 1 else 0)
  {
    assert (log + [e])[..|log|] == log;
  }

  lemma LateAppend(f: seq<ScheduledDatagram>, x: ScheduledDatagram, highest: int)
    requires forall a :: 0 <= a < |f| ==> f[a].packetIndex <= highest
    requires f != [] ==> exists a :: 0 <= a < |f| && f[a].packetIndex == highest
    requires f == [] ==> highest == -1
    ensures LatePackets(f + [x]) == LatePackets(f) + (if x.packetIndex < highest then {x.packetIndex} else {})
  {
    var g := f + [x];
    forall b | 0 <= b < |f|
      ensures CameLate(g, b) <==> CameLate(f, b)
    {
      if CameLate(g, b) {
        var a :| 0 <= a < b && g[a].packetIndex > g[b].packetIndex;
        assert f[a].packetIndex > f[b].packetIndex;
      }
      if CameLate(f, b) {
        var a :| 0 <= a < b && f[a].packetIndex > f[b].packetIndex;
        assert g[a].packetIndex > g[b].packetIndex;
      }
    }
    assert CameLate(g, |f|) <==> x.packetIndex < highest by {
      if CameLate(g, |f|) {
        var a :| 0 <= a < |f| && g[a].packetIndex > g[|f|].packetIndex;
        assert f[a].packetIndex > x.packetIndex;
      }
      if x.packetIndex < highest {
        var a :| 0 <= a < |f| && f[a].packetIndex == highest;
        assert g[a].packetIndex > g[|f|].packetIndex;
      }
    }
    forall p
      ensures p in LatePackets(g) <==> p in LatePackets(f) || (p == x.packetIndex && x.packetIndex < highest)
    {
      if p in LatePackets(g) {
        var b :| 0 <= b < |g| && CameLate(g, b) && g[b].packetIndex == p;
        if b < |f| { assert f[b].packetIndex == p; }
      }
      if p in LatePackets(f) {
        var b :| 0 <= b < |f| && CameLate(f, b) && f[b].packetIndex == p;
        assert g[b].packetIndex == p && CameLate(g, b);
      }
      if p == x.packetIndex && x.packetIndex < highest {
        assert g[|f|].packetIndex == p && CameLate(g, |f|);
      }
    }
  }

  lemma HighestAppend(s: LinkState, item: ScheduledDatagram, r: LinkState)
    requires forall a :: 0 <= a < |s.forwarded| ==> s.forwarded[a].packetIndex <= s.highestForwarded
    requires s.forwarded == [] ==> s.highestForwarded == -1
    requires s.forwarded != [] ==>
      exists a :: 0 <= a < |s.forwarded| && s.forwarded[a].packetIndex == s.highestForwarded
    requires r.forwarded == s.forwarded + [item]
    requires r.highestForwarded == Max(s.highestForwarded, item.packetIndex)
    ensures forall a :: 0 <= a < |r.forwarded| ==> r.forwarded[a].packetIndex <= r.highestForwarded
    ensures exists a :: 0 <= a < |r.forwarded| && r.forwarded[a].packetIndex == r.highestForwarded
  {
    if item.packetIndex >= s.highestForwarded {
      assert r.forwarded[|s.forwarded|].packetIndex == r.highestForwarded;
    } else {
      var a :| 0 <= a < |s.forwarded| && s.forwarded[a].packetIndex == s.highestForwarded;
      assert r.forwarded[a].packetIndex == r.highestForwarded;
    }
  }

  lemma NoteCounts(setup: Setup, s: LinkState, item: ScheduledDatagram, nowNs: int)
    requires forall p :: ReorderCount(s.log, p) == if p in s.reordered then 1 else 0
    requires StatisticsOf(s.log).packetsReordered == |s.reordered|
    ensures var s1 := NoteOvertaken(setup, s, item, nowNs);
      && s1.reordered == s.reordered + (if item.packetIndex < s.highestForwarded then {item.packetIndex} else {})
      && (forall p :: ReorderCount(s1.log, p) == if p in s1.reordered then 1 else 0)
      && StatisticsOf(s1.log).packetsReordered == |s1.reordered|
  {
    if IsOvertaken(s, item) {
      var s1 := NoteOvertaken(setup, s, item, nowNs);
      var e := s1.log[|s.log|];
      StatisticsAppend(s.log, e);
      forall p
        ensures ReorderCount(s1.log, p) == if p in s1.reordered then 1 else 0
      {
        ReorderAppend(s.log, e, p);
      }
    }
  }

  /** The reorder events of `r` are those of `log`. */
  ghost predicate SameReorders(log: seq<LinkEvent>, r: seq<LinkEvent>) {
    forall p :: ReorderCount(r, p) == ReorderCount(log, p)
  }

  /** One logged event: its counter grows, and only a reorder event is reordering evidence. */
  lemma LoggedStatistics(
    setup: Setup, log: seq<LinkEvent>, t: LinkEventType, nowNs: int, packetIndex: nat, fields: map<Field, Scalar>)
    ensures var r := Logged(setup, log, t, nowNs, packetIndex, fields);
      && StatisticsOf(r) == Incremented(StatisticsOf(log), t)
      && (t != PacketReordered ==> SameReorders(log, r))
  {
    var e := Stamped(setup, log, t, nowNs, Some(packetIndex), Fields(fields));
    StatisticsAppend(log, e);
    forall p { ReorderAppend(log, e, p); }
  }

  lemma ForwardKeepsEvidence(setup: Setup, s: LinkState, item: ScheduledDatagram, nowNs: int)
    requires EvidenceKept(s)
    ensures EvidenceKept(Forward(setup, s, item, nowNs))
  {
    hide StatisticsOf, ReorderCount, Logged, ForwardFields, ReorderFields, CameLate;
    var s1 := NoteOvertaken(setup, s, item, nowNs);
    LateAppend(s.forwarded, item, s.highestForwarded);
    NoteCounts(setup, s, item, nowNs);
    LoggedStatistics(setup, s1.log, PacketForwarded, nowNs, item.packetIndex, ForwardFields(item));
    HighestAppend(s, item, Forward(setup, s, item, nowNs));
  }

  lemma {:induction false} ForwardAllKeepsEvidence(
    setup: Setup, s: LinkState, items: seq<ScheduledDatagram>, nowNs: int)
    requires EvidenceKept(s)
    ensures EvidenceKept(ForwardAll(setup, s, items, nowNs))
  {
    if items == [] {
    } else {
      ForwardAllKeepsEvidence(setup, s, items[..|items| - 1], nowNs);
      ForwardKeepsEvidence(setup, ForwardAll(setup, s, items[..|items| - 1], nowNs), items[|items| - 1], nowNs);
    }
  }

  function One(b: bool): nat { if b then 1 else 0 }

  function IncrementedIf(c: LinkStatistics, condition: bool, t: LinkEventType): LinkStatistics {
    if condition then Incremented(c, t) else c
  }

  lemma IncrementedThrice(c: LinkStatistics, duplicated: bool, corrupted: bool, delayed: bool)
    ensures
      IncrementedIf(IncrementedIf(IncrementedIf(c, duplicated, PacketDuplicated), corrupted, PacketCorrupted),
        delayed, PacketDelayed) ==
      c.(packetsDuplicated := c.packetsDuplicated + One(duplicated),
         packetsCorrupted := c.packetsCorrupted + One(corrupted),
         packetsDelayed := c.packetsDelayed + One(delayed))
  {
  }

  lemma LoggedIfStatistics(
    setup: Setup, log: seq<LinkEvent>, condition: bool, t: LinkEventType, nowNs: int, packetIndex: nat,
    fields: map<Field, Scalar>)
    requires t != PacketReordered
    ensures var r := LoggedIf(setup, log, condition, t, nowNs, packetIndex, fields);
      && StatisticsOf(r) == IncrementedIf(StatisticsOf(log), condition, t)
      && SameReorders(log, r)
  {
    LoggedStatistics(setup, log, t, nowNs, packetIndex, fields);
  }

  lemma {:induction false} DeliveriesStatistics(
    setup: Setup, log: seq<LinkEvent>, outcome: PacketOutcome, count: nat, nowNs: int)
    requires count <= |outcome.deliveries|
    ensures var r := DeliveriesLog(setup, log, outcome, count, nowNs); var c := StatisticsOf(log);
      StatisticsOf(r) == c.(deliveriesScheduled := c.deliveriesScheduled + count) && SameReorders(log, r)
  {
    if count == 0 {
    } else {
      DeliveriesStatistics(setup, log, outcome, count - 1, nowNs);
      LoggedStatistics(setup, DeliveriesLog(setup, log, outcome, count - 1, nowNs), DeliveryScheduled, nowNs,
        outcome.packetIndex, DeliveryFields(outcome.deliveries[count - 1]));
    }
  }

  lemma EffectsStatistics(setup: Setup, log: seq<LinkEvent>, outcome: PacketOutcome, nowNs: int)
    requires outcome.deliveries != []
    ensures var r := EffectsLog(setup, log, outcome, nowNs);
      var first := outcome.deliveries[0]; var c := StatisticsOf(log);
      && StatisticsOf(r) == c.(
           packetsDuplicated := c.packetsDuplicated + One(outcome.Duplicated()),
           packetsCorrupted := c.packetsCorrupted + One(first.corruptedBit.Some?),
           packetsDelayed := c.packetsDelayed + One(first.delayMs > 0))
      && SameReorders(log, r)
  {
    hide StatisticsOf, LoggedIf;
    var first := outcome.deliveries[0];
    var copies, bit := map[CopyCount := Number(|outcome.deliveries|)], map[BitIndex := BitScalar(first.corruptedBit)];
    var l1 := LoggedIf(setup, log, outcome.Duplicated(), PacketDuplicated, nowNs, outcome.packetIndex, copies);
    var l2 := LoggedIf(setup, l1, first.corruptedBit.Some?, PacketCorrupted, nowNs, outcome.packetIndex, bit);
    IncrementedThrice(StatisticsOf(log), outcome.Duplicated(), first.corruptedBit.Some?, first.delayMs > 0);
    LoggedIfStatistics(setup, log, outcome.Duplicated(), PacketDuplicated, nowNs, outcome.packetIndex, copies);
    LoggedIfStatistics(setup, l1, first.corruptedBit.Some?, PacketCorrupted, nowNs, outcome.packetIndex, bit);
    LoggedIfStatistics(setup, l2, first.delayMs > 0, PacketDelayed, nowNs, outcome.packetIndex,
      map[DelayField := Number(first.delayMs)]);
  }

  /** The counters after one packet's outcome, from those before. */
  function OutcomeCounters(c: LinkStatistics, outcome: PacketOutcome): LinkStatistics
    requires outcome.dropped || outcome.deliveries != []
  {
    if outcome.dropped then
      c.(packetsReceived := c.packetsReceived + 1, packetsDropped := c.packetsDropped + 1)
    else c.(
      packetsReceived := c.packetsReceived + 1,
      packetsDuplicated := c.packetsDuplicated + One(outcome.Duplicated()),
      packetsCorrupted := c.packetsCorrupted + One(outcome.deliveries[0].corruptedBit.Some?),
      packetsDelayed := c.packetsDelayed + One(outcome.deliveries[0].delayMs > 0),
      deliveriesScheduled := c.deliveriesScheduled + |outcome.deliveries|)
  }

  lemma DeliveredStatistics(
    setup: Setup, received: seq<LinkEvent>, outcome: PacketOutcome, nowNs: int, c: LinkStatistics)
    requires !outcome.dropped && outcome.deliveries != []
    requires StatisticsOf(received) == c.(packetsReceived := c.packetsReceived + 1)
    ensures var r := DeliveriesLog(
        setup, EffectsLog(setup, received, outcome, nowNs), outcome, |outcome.deliveries|, nowNs);
      SameReorders(received, r) && StatisticsOf(r) == OutcomeCounters(c, outcome)
  {
    EffectsStatistics(setup, received, outcome, nowNs);
    DeliveriesStatistics(setup, EffectsLog(setup, received, outcome, nowNs), outcome, |outcome.deliveries|, nowNs);
  }

  lemma OutcomeStatistics(setup: Setup, log: seq<LinkEvent>, raw: Bytes, outcome: PacketOutcome, nowNs: int)
    requires outcome.dropped || outcome.deliveries != []
    ensures var r := OutcomeLog(setup, log, raw, outcome, nowNs);
      SameReorders(log, r) && StatisticsOf(r) == OutcomeCounters(StatisticsOf(log), outcome)
  {
    var size := map[PayloadBytes := Number(|raw|)];
    LoggedStatistics(setup, log, PacketReceived, nowNs, outcome.packetIndex, size);
    var received := Logged(setup, log, PacketReceived, nowNs, outcome.packetIndex, size);
    if outcome.dropped {
      LoggedStatistics(setup, received, PacketDropped, nowNs, outcome.packetIndex, size);
    } else {
      DeliveredStatistics(setup, received, outcome, nowNs, StatisticsOf(log));
    }
  }

  lemma ReceiveKeepsEvidence(setup: Setup, s: LinkState, a: Arrival)
    requires setup.Valid() && EvidenceKept(s)
    ensures EvidenceKept(Receive(setup, s, a))
  {
    hide OutcomeLog, StatisticsOf, InsertAll, Scheduled;
    var outcome := NextOutcome(setup, s, a.payload);
    OutcomeStatistics(setup, s.log, a.payload, outcome, a.receivedAtNs);
  }

  lemma StartsAtZero(setup: Setup)
    ensures StatisticsOf(Start(setup).log) == ZERO_STATISTICS
    ensures forall p :: ReorderCount(Start(setup).log, p) == 0
  {
    var e := Start(setup).log[0];
    StatisticsAppend([], e);
    assert [] + [e] == Start(setup).log;
    forall p { ReorderAppend([], e, p); }
  }

  /**
   * Reordering evidence: over any run `packet_reordered` is logged exactly once for each packet
   * with some delivery forwarded after a higher-numbered packet, and for no other; the counter is
   * the size of that set.
   */
  lemma {:induction false} ReorderingEvidence(setup: Setup, turns: seq<Turn>)
    requires setup.Valid()
    ensures EvidenceKept(Run(setup, turns))
  {
    hide ForwardAll, Receive;
    if turns == [] {
      StartsAtZero(setup);
    } else {
      var init, last := turns[..|turns| - 1], turns[|turns| - 1];
      ReorderingEvidence(setup, init);
      var s := Run(setup, init);
      var g := GateAt(s, last.nowNs);
      assert EvidenceKept(s.(agenda := Held(s.agenda, g)));
      ForwardAllKeepsEvidence(setup, s.(agenda := Held(s.agenda, g)), Ready(s.agenda, g), last.nowNs);
      if !s.releasing && last.arrival.Some? {
        ReceiveKeepsEvidence(setup, SendReady(setup, s, last.nowNs), last.arrival.value);
      }
    }
  }

  // ---------- counters ----------

  /** How many of the first `n` packets the engine drops. */
  function DropCount(config: LinkConfig, n: nat): nat
    requires config.Valid()
  {
    if n == 0 then 0 else DropCount(config, n - 1) + One(Drops(config, n - 1))
  }

  /** How many of the first `n` packets leave as two copies. */
  function DuplicateCount(config: LinkConfig, n: nat): nat
    requires config.Valid()
  {
    if n == 0 then 0
    else DuplicateCount(config, n - 1) + One(!Drops(config, n - 1) && Duplicates(config, n - 1))
  }

  /** A packet whose deliveries carry one flipped bit: selected for it, not dropped, and not empty. */
  predicate Corrupted(config: LinkConfig, index: nat, payload: Bytes)
    requires config.Valid()
  {
    !Drops(config, index) && Corrupts(config, index) && payload != []
  }

  function CorruptCount(config: LinkConfig, arrivals: seq<Arrival>): nat
    requires config.Valid()
  {
    if arrivals == [] then 0
    else
      var n := |arrivals| - 1;
      CorruptCount(config, arrivals[..n]) + One(Corrupted(config, n, arrivals[n].payload))
  }

  lemma CorruptAppend(config: LinkConfig, arrivals: seq<Arrival>, a: Arrival)
    requires config.Valid()
    ensures CorruptCount(config, arrivals + [a]) ==
      CorruptCount(config, arrivals) + One(Corrupted(config, |arrivals|, a.payload))
  {
    assert (arrivals + [a])[..|arrivals|] == arrivals;
  }

  lemma OutcomeCorruption(config: LinkConfig, index: nat, payload: Bytes)
    requires config.Valid()
    ensures var o := OutcomeAt(config, index, payload);
      Corrupted(config, index, payload) <==> o.deliveries != [] && o.deliveries[0].corruptedBit.Some?
  {
    var s := Samples(config, index);
    assert OutcomeAt(config, index, payload) == OutcomeFrom(config, index, s, payload);
  }

  ghost predicate Accounted(config: LinkConfig, s: LinkState)
    requires config.Valid()
  {
    var c := StatisticsOf(s.log); var n := |s.arrivals|;
    && c.packetsReceived == n
    && c.packetsDropped == DropCount(config, n)
    && c.packetsDuplicated == DuplicateCount(config, n)
    && c.deliveriesScheduled == n - DropCount(config, n) + DuplicateCount(config, n)
    && c.deliveriesScheduled == |Produced(config, s.arrivals)|
    && c.deliveriesForwarded == |s.forwarded|
  }

  /** Sending changes two counters only. */
  ghost predicate SendsOnly(c: LinkStatistics, d: LinkStatistics, sent: nat) {
    d == c.(packetsReordered := d.packetsReordered, deliveriesForwarded := c.deliveriesForwarded + sent)
  }

  lemma {:induction false} ForwardAllCounts(setup: Setup, s: LinkState, items: seq<ScheduledDatagram>, nowNs: int)
    ensures SendsOnly(StatisticsOf(s.log), StatisticsOf(ForwardAll(setup, s, items, nowNs).log), |items|)
  {
    hide StatisticsOf, ReorderFields, ForwardFields, Logged;
    if items == [] {
    } else {
      var item := items[|items| - 1];
      ForwardAllCounts(setup, s, items[..|items| - 1], nowNs);
      var m := ForwardAll(setup, s, items[..|items| - 1], nowNs);
      var m1 := NoteOvertaken(setup, m, item, nowNs);
      LoggedStatistics(setup, m.log, PacketReordered, nowNs, item.packetIndex, ReorderFields(m.highestForwarded, item));
      LoggedStatistics(setup, m1.log, PacketForwarded, nowNs, item.packetIndex, ForwardFields(item));
    }
  }

  lemma SendAccounts(setup: Setup, s: LinkState, nowNs: int)
    requires setup.Valid() && Accounted(setup.config, s)
    ensures Accounted(setup.config, SendReady(setup, s, nowNs))
  {
    SendReadyCore(setup, s, nowNs);
    var g := GateAt(s, nowNs);
    ForwardAllCounts(setup, s.(agenda := Held(s.agenda, g)), Ready(s.agenda, g), nowNs);
  }

  lemma CountsAddUp(config: LinkConfig, n: nat, c: LinkStatistics, d: LinkStatistics)
    requires config.Valid()
    requires c.packetsDropped == DropCount(config, n) && c.packetsDuplicated == DuplicateCount(config, n)
    requires c.deliveriesScheduled == n - DropCount(config, n) + DuplicateCount(config, n)
    requires d.packetsDropped == c.packetsDropped + One(Drops(config, n))
    requires d.packetsDuplicated == c.packetsDuplicated + One(!Drops(config, n) && Duplicates(config, n))
    requires d.deliveriesScheduled == c.deliveriesScheduled
      + (if Drops(config, n) then 0 else if Duplicates(config, n) then 2 else 1)
    ensures d.packetsDropped == DropCount(config, n + 1) && d.packetsDuplicated == DuplicateCount(config, n + 1)
    ensures d.deliveriesScheduled == n + 1 - DropCount(config, n + 1) + DuplicateCount(config, n + 1)
  {
  }

  lemma ReceiveAccounts(setup: Setup, s: LinkState, a: Arrival)
    requires setup.Valid() && Accounted(setup.config, s)
    ensures Accounted(setup.config, Receive(setup, s, a))
  {
    var outcome := NextOutcome(setup, s, a.payload);
    var log := OutcomeLog(setup, s.log, a.payload, outcome, a.receivedAtNs);
    OutcomeShape(setup.config, |s.arrivals|, a.payload);
    OutcomeStatistics(setup, s.log, a.payload, outcome, a.receivedAtNs);
    ProducedAppend(setup.config, s.arrivals, a);
    CountsAddUp(setup.config, |s.arrivals|, StatisticsOf(s.log), StatisticsOf(log));
  }

  /** One corruption event for each corrupted packet. */
  ghost predicate CorruptionAccounted(config: LinkConfig, s: LinkState)
    requires config.Valid()
  {
    StatisticsOf(s.log).packetsCorrupted == CorruptCount(config, s.arrivals)
  }

  lemma ReceiveCorruption(setup: Setup, s: LinkState, a: Arrival)
    requires setup.Valid() && CorruptionAccounted(setup.config, s)
    ensures CorruptionAccounted(setup.config, Receive(setup, s, a))
  {
    hide StatisticsOf, OutcomeLog, OutcomeAt;
    var outcome := NextOutcome(setup, s, a.payload);
    OutcomeShape(setup.config, |s.arrivals|, a.payload);
    OutcomeStatistics(setup, s.log, a.payload, outcome, a.receivedAtNs);
    CorruptAppend(setup.config, s.arrivals, a);
    OutcomeCorruption(setup.config, |s.arrivals|, a.payload);
  }

  lemma SendCorruption(setup: Setup, s: LinkState, nowNs: int)
    requires setup.Valid() && CorruptionAccounted(setup.config, s)
    ensures CorruptionAccounted(setup.config, SendReady(setup, s, nowNs))
  {
    hide StatisticsOf;
    SendReadyCore(setup, s, nowNs);
    var g := GateAt(s, nowNs);
    ForwardAllCounts(setup, s.(agenda := Held(s.agenda, g)), Ready(s.agenda, g), nowNs);
  }

  lemma StartsUncorrupted(setup: Setup)
    requires setup.Valid()
    ensures CorruptionAccounted(setup.config, Start(setup))
  {
    StartsAtZero(setup);
  }

  lemma {:induction false} RunCorruption(setup: Setup, turns: seq<Turn>)
    requires setup.Valid()
    ensures CorruptionAccounted(setup.config, Run(setup, turns))
  {
    hide CorruptionAccounted, SendReady, Receive;
    if turns == [] {
      StartsUncorrupted(setup);
    } else {
      var init, last := turns[..|turns| - 1], turns[|turns| - 1];
      RunCorruption(setup, init);
      var s := Run(setup, init);
      SendReadyCore(setup, s, last.nowNs);
      SendCorruption(setup, s, last.nowNs);
      if !s.releasing && last.arrival.Some? {
        ReceiveCorruption(setup, SendReady(setup, s, last.nowNs), last.arrival.value);
      }
    }
  }

  lemma {:induction false} RunAccounted(setup: Setup, turns: seq<Turn>)
    requires setup.Valid()
    ensures Accounted(setup.config, Run(setup, turns))
  {
    if turns == [] {
      StartsAtZero(setup);
    } else {
      var init, last := turns[..|turns| - 1], turns[|turns| - 1];
      RunAccounted(setup, init);
      var s := Run(setup, init);
      SendAccounts(setup, s, last.nowNs);
      if !s.releasing && last.arrival.Some? {
        ReceiveAccounts(setup, SendReady(setup, s, last.nowNs), last.arrival.value);
      }
    }
  }

  lemma SizesAddUp(all: seq<ScheduledDatagram>, f: seq<ScheduledDatagram>, g: seq<ScheduledDatagram>)
    requires multiset(all) == multiset(f) + multiset(g)
    ensures |all| == |f| + |g|
  {
    assert |multiset(all)| == |multiset(f)| + |multiset(g)|;
  }

  /**
   * Accounting: at every loop head the counters are the packets received, dropped and duplicated
   * by the engine, scheduled = received - dropped + duplicated, and forwarded + pending = scheduled.
   */
  lemma CountersAddUp(setup: Setup, turns: seq<Turn>)
    requires setup.Valid()
    ensures var s := Run(setup, turns); var c := StatisticsOf(s.log);
      && Accounted(setup.config, s)
      && CorruptionAccounted(setup.config, s)
      && c.deliveriesForwarded + |s.agenda| == c.deliveriesScheduled
      && c.packetsReordered == |LatePackets(s.forwarded)|
  {
    var s := Run(setup, turns);
    RunAccounted(setup, turns);
    RunCorruption(setup, turns);
    ExactlyOnce(setup, turns);
    ReorderingEvidence(setup, turns);
    SizesAddUp(Produced(setup.config, s.arrivals), s.forwarded, s.agenda);
  }

  // ---------- the log as a loaded file ----------

  /** A log that may still grow at `nowNs`. */
  ghost predicate OpenLog(setup: Setup, log: seq<LinkEvent>, nowNs: int) {
    && AcceptedLog(log)
    && log != []
    && log[0].sessionId == setup.sessionId
    && log[0].schemaVersion == SCHEMA_VERSION
    && log[|log| - 1].eventType != RunSummary
    && 0 <= LastElapsed(log) <= nowNs - setup.startNs
  }

  lemma LoggedOpen(
    setup: Setup, log: seq<LinkEvent>, t: LinkEventType, nowNs: int, packetIndex: nat, fields: map<Field, Scalar>)
    requires setup.Valid() && OpenLog(setup, log, nowNs)
    requires t != RunMetadata && t != RunSummary
    ensures OpenLog(setup, Logged(setup, log, t, nowNs, packetIndex, fields), nowNs)
  {
    AcceptedExtends(log, Stamped(setup, log, t, nowNs, Some(packetIndex), Fields(fields)));
  }

  lemma {:induction false} ForwardAllOpen(setup: Setup, s: LinkState, items: seq<ScheduledDatagram>, nowNs: int)
    requires setup.Valid() && OpenLog(setup, s.log, nowNs)
    ensures OpenLog(setup, ForwardAll(setup, s, items, nowNs).log, nowNs)
  {
    if items == [] {
    } else {
      var item := items[|items| - 1];
      ForwardAllOpen(setup, s, items[..|items| - 1], nowNs);
      var m := ForwardAll(setup, s, items[..|items| - 1], nowNs);
      var m1 := NoteOvertaken(setup, m, item, nowNs);
      LoggedOpen(setup, m.log, PacketReordered, nowNs, item.packetIndex, ReorderFields(m.highestForwarded, item));
      LoggedOpen(setup, m1.log, PacketForwarded, nowNs, item.packetIndex, ForwardFields(item));
    }
  }

  lemma {:induction false} DeliveriesOpen(
    setup: Setup, log: seq<LinkEvent>, outcome: PacketOutcome, count: nat, nowNs: int)
    requires setup.Valid() && OpenLog(setup, log, nowNs) && count <= |outcome.deliveries|
    ensures OpenLog(setup, DeliveriesLog(setup, log, outcome, count, nowNs), nowNs)
  {
    if count == 0 {
    } else {
      DeliveriesOpen(setup, log, outcome, count - 1, nowNs);
      LoggedOpen(setup, DeliveriesLog(setup, log, outcome, count - 1, nowNs), DeliveryScheduled, nowNs,
        outcome.packetIndex, DeliveryFields(outcome.deliveries[count - 1]));
    }
  }

  lemma EffectsOpen(setup: Setup, log: seq<LinkEvent>, outcome: PacketOutcome, nowNs: int)
    requires setup.Valid() && OpenLog(setup, log, nowNs) && outcome.deliveries != []
    ensures OpenLog(setup, EffectsLog(setup, log, outcome, nowNs), nowNs)
  {
    var first := outcome.deliveries[0];
    var copies, bit := map[CopyCount := Number(|outcome.deliveries|)], map[BitIndex := BitScalar(first.corruptedBit)];
    var l1 := LoggedIf(setup, log, outcome.Duplicated(), PacketDuplicated, nowNs, outcome.packetIndex, copies);
    var l2 := LoggedIf(setup, l1, first.corruptedBit.Some?, PacketCorrupted, nowNs, outcome.packetIndex, bit);
    LoggedOpen(setup, log, PacketDuplicated, nowNs, outcome.packetIndex, copies);
    LoggedOpen(setup, l1, PacketCorrupted, nowNs, outcome.packetIndex, bit);
    LoggedOpen(setup, l2, PacketDelayed, nowNs, outcome.packetIndex, map[DelayField := Number(first.delayMs)]);
  }

  lemma OutcomeOpen(setup: Setup, log: seq<LinkEvent>, raw: Bytes, outcome: PacketOutcome, nowNs: int)
    requires setup.Valid() && OpenLog(setup, log, nowNs)
    requires outcome.dropped || outcome.deliveries != []
    ensures OpenLog(setup, OutcomeLog(setup, log, raw, outcome, nowNs), nowNs)
  {
    var size := map[PayloadBytes := Number(|raw|)];
    LoggedOpen(setup, log, PacketReceived, nowNs, outcome.packetIndex, size);
    var received := Logged(setup, log, PacketReceived, nowNs, outcome.packetIndex, size);
    if outcome.dropped {
      LoggedOpen(setup, received, PacketDropped, nowNs, outcome.packetIndex, size);
    } else {
      EffectsOpen(setup, received, outcome, nowNs);
      DeliveriesOpen(setup, EffectsLog(setup, received, outcome, nowNs), outcome, |outcome.deliveries|, nowNs);
    }
  }

  /** With a nondecreasing clock no emission is refused: the log stays acceptable and open. */
  lemma {:induction false} RunLogOpen(setup: Setup, turns: seq<Turn>)
    requires setup.Valid() && Clocked(setup, turns)
    ensures OpenLog(setup, Run(setup, turns).log, LastReading(setup, turns))
  {
    if turns == [] {
      AcceptedExtends([], Start(setup).log[0]);
      assert [] + [Start(setup).log[0]] == Start(setup).log;
    } else {
      var init, last := turns[..|turns| - 1], turns[|turns| - 1];
      RunLogOpen(setup, init);
      var s := Run(setup, init);
      var g := GateAt(s, last.nowNs);
      ForwardAllOpen(setup, s.(agenda := Held(s.agenda, g)), Ready(s.agenda, g), last.nowNs);
      if !s.releasing && last.arrival.Some? {
        var sent := SendReady(setup, s, last.nowNs);
        var a := last.arrival.value;
        OutcomeOpen(setup, sent.log, a.payload, NextOutcome(setup, sent, a.payload), a.receivedAtNs);
      }
    }
  }

  lemma OpenLogCloses(setup: Setup, log: seq<LinkEvent>, e: LinkEvent, endNs: int)
    requires setup.Valid() && OpenLog(setup, log, endNs)
    requires e.eventType == RunSummary && e.attributes.Fields?
    requires e == Stamped(setup, log, RunSummary, endNs, None, e.attributes)
    ensures AcceptedLog(log + [e])
  {
    AcceptedExtends(log, e);
  }

  lemma SummaryValue(events: seq<LinkEvent>)
    requires ValidateRunSummary(events).Success?
    ensures ValidateRunSummary(events).value == StatisticsOf(events[..|events| - 1])
  {
  }

  lemma SummaryClosesLog(log: seq<LinkEvent>, e: LinkEvent)
    requires AcceptedLog(log + [e]) && e.eventType == RunSummary
    requires e.attributes == Fields(ToFields(StatisticsOf(log)))
    ensures ValidateRunSummary(log + [e]) == Success(StatisticsOf(log))
    ensures StatisticsOf(log + [e]) == StatisticsOf(log)
  {
    var all := log + [e];
    assert all[..|all| - 1] == log;
    AcceptedSummary(all);
    SummaryValue(all);
    StatisticsAppend(log, e);
  }

  /**
   * Self-consistent log: for every finished run the loader accepts the log, the summary check
   * succeeds, and what it returns are the counters recomputed from the events.
   */
  lemma FinishedLogVerifies(setup: Setup, turns: seq<Turn>, endNs: int)
    requires setup.Valid() && Clocked(setup, turns) && LastReading(setup, turns) <= endNs
    ensures var s := Run(setup, turns); var log := Finished(setup, s, endNs);
      && AcceptedLog(log)
      && ValidateRunSummary(log) == Success(StatisticsOf(s.log))
      && StatisticsOf(log) == StatisticsOf(s.log)
  {
    RunLogOpen(setup, turns);
    var s := Run(setup, turns);
    var e := Stamped(setup, s.log, RunSummary, endNs, None, Fields(ToFields(StatisticsOf(s.log))));
    var log := Finished(setup, s, endNs);
    OpenLogCloses(setup, s.log, e, endNs);
    SummaryClosesLog(s.log, e);
  }
}
