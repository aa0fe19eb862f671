/** Delivery order over whole runs: bounded overtaking, FIFO, duplicates, draining. */
module LinkOrder {
  import opened Wrappers
  import opened Impairments
  import opened Schedule
  import opened LinkRun

  // ---------- why one delivery may overtake another ----------

  /** `j` may leave before the earlier packet's `i`: `i` was still held, or falls due later. */
  predicate Justified(j: ScheduledDatagram, i: ScheduledDatagram) {
    j.packetIndex > i.packetIndex ==> j.packetIndex < i.releaseAfterPacket || j.dueAtNs < i.dueAtNs
  }

  ghost predicate OrderKept(s: LinkState) {
    && (forall a, b :: 0 <= a < b < |s.forwarded| ==> Justified(s.forwarded[a], s.forwarded[b]))
    && (forall j, i :: j in s.forwarded && i in s.agenda ==> Justified(j, i))
  }

  /** What an open gate implies about the packets already received. */
  lemma ReadyOvertakesJustly(g: Gate, j: ScheduledDatagram, i: ScheduledDatagram)
    requires Opens(g, j) && j.packetIndex <= g.highest
    requires !Opens(g, i) || AtMost(j, i)
    ensures Justified(j, i)
  {
  }

  lemma BatchKeepsOrder(s: LinkState, g: Gate, r: LinkState)
    requires OrderKept(s) && Sorted(s.agenda)
    requires forall x :: x in s.agenda ==> x.packetIndex <= g.highest
    requires r.forwarded == s.forwarded + Ready(s.agenda, g) && r.agenda == Held(s.agenda, g)
    ensures OrderKept(r)
  {
    var ready := Ready(s.agenda, g);
    ReadyHeldMembers(s.agenda, g);
    ReadyHeldSorted(s.agenda, g);
    forall a, b | 0 <= a < b < |r.forwarded|
      ensures Justified(r.forwarded[a], r.forwarded[b])
    {
      if b >= |s.forwarded| {
        assert r.forwarded[b] in ready;
        if a >= |s.forwarded| {
          assert r.forwarded[a] in ready;
          ReadyOvertakesJustly(g, r.forwarded[a], r.forwarded[b]);
        } else {
          assert r.forwarded[a] in s.forwarded;
        }
      }
    }
    forall j, i | j in r.forwarded && i in r.agenda
      ensures Justified(j, i)
    {
      if j !in s.forwarded {
        assert j in ready;
        ReadyOvertakesJustly(g, j, i);
      }
    }
  }

  lemma SendKeepsOrder(setup: Setup, s: LinkState, nowNs: int)
    requires setup.Valid() && Conserved(setup.config, s) && OrderKept(s)
    ensures OrderKept(SendReady(setup, s, nowNs))
  {
    SendReadyCore(setup, s, nowNs);
    PendingIdentified(setup.config, s);
    BatchKeepsOrder(s, GateAt(s, nowNs), SendReady(setup, s, nowNs));
  }

  lemma ReceiveKeepsOrder(setup: Setup, s: LinkState, a: Arrival)
    requires setup.Valid() && Conserved(setup.config, s) && OrderKept(s)
    ensures OrderKept(Receive(setup, s, a))
  {
    var items := Scheduled(NextOutcome(setup, s, a.payload), a.receivedAtNs);
    PendingIdentified(setup.config, s);
    InsertAllProperties(s.agenda, items);
    forall j, i | j in s.forwarded && i in InsertAll(s.agenda, items)
      ensures Justified(j, i)
    {
      assert i in multiset(InsertAll(s.agenda, items));
      if i !in s.agenda {
        assert i in multiset(items);
        assert i in items;
      }
    }
  }

  lemma {:induction false} RunKeepsOrder(setup: Setup, turns: seq<Turn>)
    requires setup.Valid()
    ensures OrderKept(Run(setup, turns))
  {
    if turns == [] {
    } else {
      var init, last := turns[..|turns| - 1], turns[|turns| - 1];
      RunKeepsOrder(setup, init);
      ExactlyOnce(setup, init);
      var s := Run(setup, init);
      SendKeepsOrder(setup, s, last.nowNs);
      SendConserves(setup, s, last.nowNs);
      if !s.releasing && last.arrival.Some? {
        ReceiveKeepsOrder(setup, SendReady(setup, s, last.nowNs), last.arrival.value);
      }
    }
  }

  // ---------- arrival times ----------

  ghost predicate TimesOrdered(arrivals: seq<Arrival>) {
    forall i, j :: 0 <= i < j < |arrivals| ==> arrivals[i].receivedAtNs <= arrivals[j].receivedAtNs
  }

  /** Arrivals carry nondecreasing times, none past the last clock reading. */
  lemma {:induction false} ArrivalTimes(setup: Setup, turns: seq<Turn>)
    requires setup.Valid() && Clocked(setup, turns)
    ensures TimesOrdered(Run(setup, turns).arrivals)
    ensures setup.startNs <= LastReading(setup, turns)
    ensures forall a :: a in Run(setup, turns).arrivals ==>
      setup.startNs <= a.receivedAtNs <= LastReading(setup, turns)
  {
    hide SendReady, OutcomeAt;
    if turns == [] {
    } else {
      var init, last := turns[..|turns| - 1], turns[|turns| - 1];
      ArrivalTimes(setup, init);
      var s := Run(setup, init);
      SendReadyCore(setup, s, last.nowNs);
      var r := Run(setup, turns);
      if !s.releasing && last.arrival.Some? {
        assert r.arrivals == s.arrivals + [last.arrival.value];
        forall i, j | 0 <= i < j < |r.arrivals|
          ensures r.arrivals[i].receivedAtNs <= r.arrivals[j].receivedAtNs
        {
          assert r.arrivals[i] in s.arrivals;
        }
      } else {
        assert r.arrivals == s.arrivals;
      }
    }
  }

  lemma DueOf(config: LinkConfig, arrivals: seq<Arrival>, x: ScheduledDatagram)
    requires config.Valid() && IsItem(config, arrivals, x)
    ensures x.dueAtNs == arrivals[x.packetIndex].receivedAtNs
      + DelayMs(config, Samples(config, x.packetIndex)[3]) * NANOSECONDS_PER_MILLISECOND
    ensures x.releaseAfterPacket == x.packetIndex + HoldPackets(config, Samples(config, x.packetIndex)[4])
    ensures x.packetIndex <= x.releaseAfterPacket <= x.packetIndex + config.reorderWindow
  {
    var s := Samples(config, x.packetIndex);
    DelayAndHoldBounds(config, s[4], s[4]);
    var outcome := OutcomeFrom(config, x.packetIndex, s, arrivals[x.packetIndex].payload);
    assert outcome == OutcomeAt(config, x.packetIndex, arrivals[x.packetIndex].payload);
    assert x == ScheduledFor(outcome, x.copyIndex, arrivals[x.packetIndex].receivedAtNs);
  }

  /** Jitter bounds how far apart two packets can be received and still fall due in reverse. */
  lemma DueReversalNeedsJitter(
    config: LinkConfig, arrivals: seq<Arrival>, j: ScheduledDatagram, i: ScheduledDatagram)
    requires config.Valid() && TimesOrdered(arrivals)
    requires IsItem(config, arrivals, j) && IsItem(config, arrivals, i)
    requires i.packetIndex < j.packetIndex && j.dueAtNs < i.dueAtNs
    ensures 0 <= arrivals[j.packetIndex].receivedAtNs - arrivals[i.packetIndex].receivedAtNs
      < 2 * config.jitterMs * NANOSECONDS_PER_MILLISECOND
  {
    var si, sj := Samples(config, i.packetIndex)[3], Samples(config, j.packetIndex)[3];
    DelayAndHoldBounds(config, si, sj);
    DueOf(config, arrivals, i);
    DueOf(config, arrivals, j);
  }

  /**
   * Bounded overtaking. In every run with a nondecreasing clock, a delivery of a later packet `j`
   * leaves before one of packet `i` only if `j` came within `i`'s hold, hence within the reorder
   * window, or fell due earlier, which needs reception within twice the jitter.
   */
  lemma BoundedOvertaking(setup: Setup, turns: seq<Turn>, a: nat, b: nat)
    requires setup.Valid() && Clocked(setup, turns)
    requires var f := Run(setup, turns).forwarded; a < b < |f| && f[b].packetIndex < f[a].packetIndex
    ensures var s := Run(setup, turns);
      var j, i := s.forwarded[a], s.forwarded[b];
      && j.packetIndex < |s.arrivals|
      && (|| j.packetIndex < i.releaseAfterPacket <= i.packetIndex + setup.config.reorderWindow
          || (&& j.dueAtNs < i.dueAtNs
              && 0 <= s.arrivals[j.packetIndex].receivedAtNs - s.arrivals[i.packetIndex].receivedAtNs
                 < 2 * setup.config.jitterMs * NANOSECONDS_PER_MILLISECOND))
  {
    var s := Run(setup, turns);
    var j, i := s.forwarded[a], s.forwarded[b];
    RunKeepsOrder(setup, turns);
    ExactlyOnce(setup, turns);
    PendingIdentified(setup.config, s);
    ArrivalTimes(setup, turns);
    assert j in s.forwarded && i in s.forwarded;
    assert Justified(j, i);
    DueOf(setup.config, s.arrivals, i);
    if j.dueAtNs < i.dueAtNs {
      DueReversalNeedsJitter(setup.config, s.arrivals, j, i);
    }
  }

  /** With zero jitter no packet is overtaken by one a whole reorder window or more behind it. */
  lemma ZeroJitterOvertaking(setup: Setup, turns: seq<Turn>, a: nat, b: nat)
    requires setup.Valid() && Clocked(setup, turns) && setup.config.jitterMs == 0
    requires a < b < |Run(setup, turns).forwarded|
    ensures var f := Run(setup, turns).forwarded;
      f[b].packetIndex < f[a].packetIndex ==> f[a].packetIndex - f[b].packetIndex < setup.config.reorderWindow
  {
    if Run(setup, turns).forwarded[b].packetIndex < Run(setup, turns).forwarded[a].packetIndex {
      BoundedOvertaking(setup, turns, a, b);
    }
  }

  // ---------- the two copies of a duplicate ----------

  function Twin(x: ScheduledDatagram): ScheduledDatagram {
    x.(copyIndex := if x.copyIndex == 0 then 1 else 0)
  }

  /** Both copies are pending or neither is. */
  ghost predicate Paired(config: LinkConfig, agenda: seq<ScheduledDatagram>)
    requires config.Valid()
  {
    forall x :: x in agenda && Duplicates(config, x.packetIndex) ==> Twin(x) in agenda
  }

  /** At `k`, copy zero of a duplicated packet stands directly before its twin, copy one directly after. */
  ghost predicate CopyPlaced(config: LinkConfig, f: seq<ScheduledDatagram>, k: nat)
    requires config.Valid() && k < |f|
  {
    Duplicates(config, f[k].packetIndex) ==>
      if f[k].copyIndex == 0 then k + 1 < |f| && f[k + 1] == Twin(f[k]) else k > 0 && f[k - 1] == Twin(f[k])
  }

  ghost predicate CopiesAdjacent(config: LinkConfig, f: seq<ScheduledDatagram>)
    requires config.Valid()
  {
    forall k :: 0 <= k < |f| ==> CopyPlaced(config, f, k)
  }

  /** How many deliveries an outcome has, and that they differ in the copy number only. */
  lemma OutcomeShape(config: LinkConfig, index: nat, payload: Bytes)
    requires config.Valid()
    ensures var o := OutcomeAt(config, index, payload);
      && o.packetIndex == index
      && o.dropped == Drops(config, index)
      && |o.deliveries| == (if Drops(config, index) then 0 else if Duplicates(config, index) then 2 else 1)
      && (forall c :: 0 <= c < |o.deliveries| ==> o.deliveries[c] == o.deliveries[0].(copyIndex := c))
  {
    var s := Samples(config, index);
    assert OutcomeAt(config, index, payload) == OutcomeFrom(config, index, s, payload);
  }

  lemma TwinIsItem(config: LinkConfig, arrivals: seq<Arrival>, x: ScheduledDatagram)
    requires config.Valid() && IsItem(config, arrivals, x)
    ensures x.copyIndex <= 1
    ensures Duplicates(config, x.packetIndex) ==> IsItem(config, arrivals, Twin(x))
    ensures x.copyIndex == 1 ==> Duplicates(config, x.packetIndex)
  {
    OutcomeShape(config, x.packetIndex, arrivals[x.packetIndex].payload);
  }

  lemma SameIdentity(s: seq<ScheduledDatagram>, a: nat, b: nat)
    requires a < |s| && b < |s| && Identified(multiset(s))
    requires s[a].packetIndex == s[b].packetIndex && s[a].copyIndex == s[b].copyIndex
    ensures s[a] == s[b]
    ensures multiset(s)[s[a]] == 1
  {
    assert s[a] in multiset(s) && s[b] in multiset(s);
  }

  lemma Occurrences(s: seq<ScheduledDatagram>, a: nat, b: nat)
    requires a < b < |s|
    ensures s[a] == s[b] ==> multiset(s)[s[a]] >= 2
  {
    assert s == s[..a] + [s[a]] + s[a + 1..b] + [s[b]] + s[b + 1..];
  }

  lemma SortedTwinsAdjacent(agenda: seq<ScheduledDatagram>, p: nat, q: nat)
    requires p < |agenda| && q < |agenda| && Sorted(agenda) && Identified(multiset(agenda))
    requires agenda[p].copyIndex == 0 && agenda[q] == Twin(agenda[p])
    requires forall x :: x in agenda ==> x.copyIndex <= 1
    ensures q == p + 1
  {
    assert AtMost(agenda[p], agenda[q]) && !AtMost(agenda[q], agenda[p]);
    assert p < q;
    if q != p + 1 {
      var x := agenda[p + 1];
      assert AtMost(agenda[p], x) && AtMost(x, agenda[q]);
      assert x in agenda && x.packetIndex == agenda[p].packetIndex;
      if x.copyIndex == 0 {
        SameIdentity(agenda, p, p + 1);
        Occurrences(agenda, p, p + 1);
      } else {
        SameIdentity(agenda, p + 1, q);
        Occurrences(agenda, p + 1, q);
      }
    }
  }

  lemma PlacedByTwin(config: LinkConfig, r: seq<ScheduledDatagram>, k: nat)
    requires config.Valid() && Sorted(r) && Identified(multiset(r)) && k < |r|
    requires forall x :: x in r ==> x.copyIndex <= 1
    requires Twin(r[k]) in r
    ensures CopyPlaced(config, r, k)
  {
    hide Identified, Sorted, Duplicates;
    assert r[k] in r;
    var m :| 0 <= m < |r| && r[m] == Twin(r[k]);
    if r[k].copyIndex == 0 {
      SortedTwinsAdjacent(r, k, m);
    } else {
      assert r[k] == Twin(r[m]);
      SortedTwinsAdjacent(r, m, k);
    }
  }

  lemma BatchAdjacent(config: LinkConfig, agenda: seq<ScheduledDatagram>, g: Gate)
    requires config.Valid() && Sorted(agenda) && Identified(multiset(agenda)) && Paired(config, agenda)
    requires forall x :: x in agenda ==> x.copyIndex <= 1
    ensures CopiesAdjacent(config, Ready(agenda, g))
    ensures Paired(config, Held(agenda, g))
  {
    hide Sorted, Identified, Ready, Held, Before, AtMost, Duplicates;
    var r := Ready(agenda, g);
    ReadyHeldMembers(agenda, g);
    ReadyHeldSorted(agenda, g);
    ReadyHeldPartition(agenda, g);
    SubIdentified(multiset(agenda), multiset(r));
    forall k | 0 <= k < |r|
      ensures CopyPlaced(config, r, k)
    {
      if Duplicates(config, r[k].packetIndex) {
        assert r[k] in r;
        assert Opens(g, Twin(r[k]));
        PlacedByTwin(config, r, k);
      }
    }
    forall x | x in Held(agenda, g) && Duplicates(config, x.packetIndex)
      ensures Twin(x) in Held(agenda, g)
    {
      assert !Opens(g, Twin(x));
    }
  }

  lemma AdjacentAppend(config: LinkConfig, f: seq<ScheduledDatagram>, g: seq<ScheduledDatagram>)
    requires config.Valid() && CopiesAdjacent(config, f) && CopiesAdjacent(config, g)
    ensures CopiesAdjacent(config, f + g)
  {
    forall k | 0 <= k < |f + g|
      ensures CopyPlaced(config, f + g, k)
    {
      if k < |f| {
        assert CopyPlaced(config, f, k);
      } else {
        assert CopyPlaced(config, g, k - |f|);
      }
    }
  }

  lemma InsertAllMembers(agenda: seq<ScheduledDatagram>, items: seq<ScheduledDatagram>, x: ScheduledDatagram)
    ensures x in InsertAll(agenda, items) <==> x in agenda || x in items
  {
    InsertAllProperties(agenda, items);
    assert x in InsertAll(agenda, items) <==> x in multiset(InsertAll(agenda, items));
    assert x in items <==> x in multiset(items);
    assert x in agenda <==> x in multiset(agenda);
  }

  lemma TwinScheduled(outcome: PacketOutcome, at: int, c: nat)
    requires |outcome.deliveries| == 2 && c < 2
    requires forall k :: 0 <= k < 2 ==> outcome.deliveries[k] == outcome.deliveries[0].(copyIndex := k)
    ensures Twin(Scheduled(outcome, at)[c]) in Scheduled(outcome, at)
  {
    var items := Scheduled(outcome, at);
    assert Twin(items[c]) == items[1 - c];
  }

  lemma ReceivePairs(setup: Setup, s: LinkState, a: Arrival)
    requires setup.Valid() && Paired(setup.config, s.agenda)
    ensures Paired(setup.config, Receive(setup, s, a).agenda)
  {
    var outcome := NextOutcome(setup, s, a.payload);
    var items := Scheduled(outcome, a.receivedAtNs);
    OutcomeShape(setup.config, |s.arrivals|, a.payload);
    forall x | x in InsertAll(s.agenda, items) && Duplicates(setup.config, x.packetIndex)
      ensures Twin(x) in InsertAll(s.agenda, items)
    {
      InsertAllMembers(s.agenda, items, x);
      InsertAllMembers(s.agenda, items, Twin(x));
      if x in items {
        var c :| 0 <= c < |items| && items[c] == x;
        TwinScheduled(outcome, a.receivedAtNs, c);
      }
    }
  }

  /** Both copies of a duplicate leave together, the first directly before the second. */
  lemma {:induction false} DuplicatesLeaveTogether(setup: Setup, turns: seq<Turn>)
    requires setup.Valid()
    ensures CopiesAdjacent(setup.config, Run(setup, turns).forwarded)
    ensures Paired(setup.config, Run(setup, turns).agenda)
  {
    if turns == [] {
    } else {
      var init, last := turns[..|turns| - 1], turns[|turns| - 1];
      DuplicatesLeaveTogether(setup, init);
      ExactlyOnce(setup, init);
      var s := Run(setup, init);
      PendingIdentified(setup.config, s);
      forall x | x in s.agenda
        ensures x.copyIndex <= 1
      {
        TwinIsItem(setup.config, s.arrivals, x);
      }
      SendReadyCore(setup, s, last.nowNs);
      BatchAdjacent(setup.config, s.agenda, GateAt(s, last.nowNs));
      AdjacentAppend(setup.config, s.forwarded, Ready(s.agenda, GateAt(s, last.nowNs)));
      if !s.releasing && last.arrival.Some? {
        ReceivePairs(setup, SendReady(setup, s, last.nowNs), last.arrival.value);
      }
    }
  }

  // ---------- FIFO ----------

  /** Strictly increasing by packet, then copy. */
  ghost predicate InOrder(f: seq<ScheduledDatagram>) {
    forall a, b :: 0 <= a < b < |f| ==>
      || f[a].packetIndex < f[b].packetIndex
      || (f[a].packetIndex == f[b].packetIndex && f[a].copyIndex < f[b].copyIndex)
  }

  lemma CopiesInOrder(config: LinkConfig, s: LinkState, a: nat, b: nat)
    requires config.Valid() && Conserved(config, s) && CopiesAdjacent(config, s.forwarded)
    requires a < b < |s.forwarded| && s.forwarded[a].packetIndex == s.forwarded[b].packetIndex
    ensures s.forwarded[a].copyIndex < s.forwarded[b].copyIndex
  {
    hide Conserved, Identified;
    var f := s.forwarded;
    var x, y := f[a], f[b];
    PendingIdentified(config, s);
    assert x in f && y in f;
    TwinIsItem(config, s.arrivals, x);
    TwinIsItem(config, s.arrivals, y);
    Occurrences(f, a, b);
    if y.copyIndex < x.copyIndex {
      assert CopyPlaced(config, f, a);
      Occurrences(f, a - 1, b);
    }
  }

  /** With zero jitter and a reorder window of at most one, the output is first in, first out. */
  lemma FirstInFirstOut(setup: Setup, turns: seq<Turn>)
    requires setup.Valid() && Clocked(setup, turns)
    requires setup.config.jitterMs == 0 && setup.config.reorderWindow <= 1
    ensures InOrder(Run(setup, turns).forwarded)
  {
    var s := Run(setup, turns);
    var f := s.forwarded;
    ExactlyOnce(setup, turns);
    PendingIdentified(setup.config, s);
    DuplicatesLeaveTogether(setup, turns);
    forall a, b | 0 <= a < b < |f|
      ensures
        || f[a].packetIndex < f[b].packetIndex
        || (f[a].packetIndex == f[b].packetIndex && f[a].copyIndex < f[b].copyIndex)
    {
      ZeroJitterOvertaking(setup, turns, a, b);
      if f[a].packetIndex == f[b].packetIndex {
        CopiesInOrder(setup.config, s, a, b);
      }
    }
  }

  // ---------- draining ----------

  lemma FirstIsMember(s: seq<ScheduledDatagram>)
    ensures s != [] ==> s[0] in s && s[0] in multiset(s)
  {
  }

  /** Once holds are released and every pending due time has passed, one send empties the agenda. */
  lemma DueReleasedDrains(setup: Setup, s: LinkState, nowNs: int)
    requires s.releasing
    requires forall x :: x in s.agenda ==> x.dueAtNs <= nowNs
    ensures SendReady(setup, s, nowNs).agenda == []
  {
    SendReadyCore(setup, s, nowNs);
    ReadyHeldMembers(s.agenda, GateAt(s, nowNs));
    FirstIsMember(Held(s.agenda, GateAt(s, nowNs)));
  }

  lemma SameDeadline(s: LinkState, g: Gate, d: Option<int>)
    requires g.highest == |s.arrivals| - 1 && g.releaseHolds == s.releasing
    requires IsDeadline(d, multiset(s.agenda), |s.arrivals| - 1, s.releasing)
    ensures Ready(s.agenda, g) != [] <==> d.Some? && d.value <= g.nowNs
  {
    DeadlineIsReadiness(s.agenda, g, d);
  }

  /** While draining, the early exit on a missing deadline would abandon nothing. */
  lemma NoDeadlineMeansEmpty(s: LinkState, d: Option<int>)
    requires s.releasing
    requires IsDeadline(d, multiset(s.agenda), |s.arrivals| - 1, s.releasing)
    ensures d.None? <==> s.agenda == []
  {
    FirstIsMember(s.agenda);
  }
}
